/** What every run of the barrier satisfies, whatever the traffic, the reactions
    of the nodes and the order of deliveries. */
module BarrierTheorems {
  import opened Options
  import opened Nodes
  import opened Handlers
  import opened Graphs
  import opened Barrier

  function InputsOf<D>(net: Net<D>): Inputs {
    map n | n in net.nodes :: net.nodes[n].node.inputs
  }

  ghost predicate AllDistinct<D>(net: Net<D>) {
    forall n :: n in net.nodes ==> Distinct(net.nodes[n].node.inputs)
  }

  /** What a step never takes back. */
  ghost predicate Later<D>(net: Net<D>, net': Net<D>) {
    && SameWiring(net, net') && net'.pending <= net.pending
    && net'.raised >= net.raised
    && (forall e :: e in net.pos ==> net'.pos[e] >= net.pos[e])
    && (forall n :: n in net.nodes ==> net'.nodes[n].node.wrongState >= net.nodes[n].node.wrongState)
  }

  lemma AdvanceExtends<D>(p: Process<D>)
    ensures Extends(p, Advance(p)) && Advance(p).node.wrongState == p.node.wrongState
  {
  }

  lemma ReceiveExtends<D>(p: Process<D>, source: string, m: Message<D>, out: seq<Message<D>>)
    ensures var p' := Receive(p, source, m, out).0;
            Extends(p, p') && p'.node.wrongState >= p.node.wrongState
  {
  }

  lemma ReplacedIsLater<D>(net: Net<D>, net': Net<D>, n: string, p: Process<D>)
    requires n in net.nodes && net'.nodes == net.nodes[n := p]
    requires Extends(net.nodes[n], p) && p.node.wrongState >= net.nodes[n].node.wrongState
    requires net'.pos.Keys == net.pos.Keys && (forall e :: e in net.pos ==> net'.pos[e] >= net.pos[e])
    requires net'.pending <= net.pending && net'.raised >= net.raised
    ensures Later(net, net')
  {
  }

  lemma StepIsLater<D>(net: Net<D>, a: Action<D>, v: string)
    ensures Later(net, Apply(net, a, v))
  {
    var net' := Apply(net, a, v);
    if a.n in net.nodes && net' != net {
      var p := net.nodes[a.n];
      match a {
        case Command(n) => ReplacedIsLater(net, net', n, BeginMgmtCheckpoint(p, v));
        case Emit(n, out) => ReplacedIsLater(net, net', n, Emitted(p, out));
        case Step(n) =>
          AdvanceExtends(p);
          ReplacedIsLater(net, net', n, Advance(p));
        case Deliver(n, k, out) =>
          ReceiveExtends(p, p.node.inputs[k], NextMessage(net, n, k), out);
          ReplacedIsLater(net, net', n, Receive(p, p.node.inputs[k], NextMessage(net, n, k), out).0);
      }
    }
  }

  lemma LaterTransitive<D>(a: Net<D>, b: Net<D>, c: Net<D>)
    requires Later(a, b) && Later(b, c)
    ensures Later(a, c)
  {
    forall n | n in a.nodes ensures Extends(a.nodes[n], c.nodes[n]) {
      assert Extends(a.nodes[n], b.nodes[n]) && Extends(b.nodes[n], c.nodes[n]);
    }
  }

  lemma {:induction false} RunIsLater<D>(net: Net<D>, actions: seq<Action<D>>, v: string)
    ensures Later(net, Run(net, actions, v))
    decreases |actions|
  {
    if actions != [] {
      StepIsLater(net, actions[0], v);
      RunIsLater(Apply(net, actions[0], v), actions[1..], v);
      LaterTransitive(net, Apply(net, actions[0], v), Run(net, actions, v));
    }
  }

  lemma LaterInputs<D>(net: Net<D>, net': Net<D>)
    requires Later(net, net')
    ensures InputsOf(net') == InputsOf(net)
    ensures AllDistinct(net') <==> AllDistinct(net)
  {
    forall n | n in net.nodes ensures net'.nodes[n].node.inputs == net.nodes[n].node.inputs {
      assert Extends(net.nodes[n], net'.nodes[n]);
    }
  }

  // ---------- consistent cut ----------

  /** What an IDLE node never changes, and what no step takes back from it. */
  ghost predicate Frozen<D>(p: Process<D>, p': Process<D>) {
    && p'.node == p.node.(log := p'.node.log, wrongState := p'.node.wrongState,
                          lastCheckpoint := p'.node.lastCheckpoint, file := p'.node.file)
    && p.node.log <= p'.node.log
    && (Announced(p) ==>
          Announced(p') && p'.node.lastCheckpoint == p.node.lastCheckpoint && p'.node.file == p.node.file)
  }

  lemma IdleIsFrozen<D>(net: Net<D>, a: Action<D>, v: string, n: string)
    requires Inv(net, v) && n in net.nodes && net.nodes[n].node.state == IDLE
    ensures n in Apply(net, a, v).nodes && Frozen(net.nodes[n], Apply(net, a, v).nodes[n])
  {
    if a.n != n {
      OthersStay(net, a, v, n);
    } else {
      match a {
        case Command(_) => IdleIgnoresCommand(net.nodes[n], n in net.pending, v);
        case Emit(_, out) =>
        case Step(_) => AdvanceIsFrozen(net.nodes[n], n in net.pending, v);
        case Deliver(_, k, out) =>
          if CanDeliver(net, n, k) && IsData(out) {
            IdleReadsData(net, v, n, k);
            IdleReceives(net.nodes[n], net.nodes[n].node.inputs[k], NextMessage(net, n, k), out);
            DeliverResult(net, v, n, k, out);
          }
      }
    }
  }

  lemma OthersStay<D>(net: Net<D>, a: Action<D>, v: string, n: string)
    requires n in net.nodes && a.n != n
    ensures n in Apply(net, a, v).nodes && Apply(net, a, v).nodes[n] == net.nodes[n]
  {
  }

  /** A source is IDLE only once it has had its command. */
  lemma IdleIgnoresCommand<D>(p: Process<D>, pending: bool, v: string)
    requires NodeInv(p, pending, v) && p.node.state == IDLE
    ensures !pending || BeginMgmtCheckpoint(p, v) == p
  {
  }

  lemma AdvanceIsFrozen<D>(p: Process<D>, pending: bool, v: string)
    requires NodeInv(p, pending, v) && p.node.state == IDLE
    ensures Frozen(p, Advance(p))
  {
  }

  /** A message is discarded: only a wrong state is counted. */
  function Discard<D>(p: Process<D>): Process<D> {
    p.(node := p.node.(wrongState := p.node.wrongState + 1))
  }

  lemma IdleReceives<D>(p: Process<D>, source: string, m: Message<D>, out: seq<Message<D>>)
    requires p.node.state == IDLE && !m.Checkpoint?
    ensures Receive(p, source, m, out) == (Discard(p), Handled)
  {
  }

  lemma IdleReadsData<D>(net: Net<D>, v: string, n: string, k: nat)
    requires Inv(net, v) && CanDeliver(net, n, k) && net.nodes[n].node.state == IDLE
    ensures !NextMessage(net, n, k).Checkpoint?
  {
    NextIsAtCut(net, v, n, k);
    IdleHasConsumed(net, v, n, k);
  }

  lemma {:induction false} IdleStaysFrozen<D>(net: Net<D>, actions: seq<Action<D>>, v: string, n: string)
    requires Inv(net, v) && n in net.nodes && net.nodes[n].node.state == IDLE
    ensures n in Run(net, actions, v).nodes && Frozen(net.nodes[n], Run(net, actions, v).nodes[n])
    decreases |actions|
  {
    if actions != [] {
      var next := Apply(net, actions[0], v);
      IdleIsFrozen(net, actions[0], v, n);
      ApplyKeepsInv(net, actions[0], v);
      IdleStaysFrozen(next, actions[1..], v, n);
      FrozenTransitive(net.nodes[n], next.nodes[n], Run(net, actions, v).nodes[n]);
    }
  }

  lemma FrozenTransitive<D>(p: Process<D>, q: Process<D>, r: Process<D>)
    requires Frozen(p, q) && Frozen(q, r)
    ensures Frozen(p, r)
  {
  }

  /** The part of an input's log that belongs to the cut: up to its checkpoint, read
      in full by n, and the same for ever. */
  ghost predicate CutConsumed<D>(s: Net<D>, t: Net<D>, v: string, n: string, k: nat) {
    && Edge(s, n, k) && Edge(t, n, k)
    && s.nodes[n].node.inputs[k] in s.nodes && t.nodes[n].node.inputs == s.nodes[n].node.inputs
    && s.nodes[n].node.inputs[k] in t.nodes && (n, k) in s.pos
    && var (before, after) := (InputLog(s, n, k), InputLog(t, n, k));
       var c := Cut(before);
       && c < |before| && c < s.pos[(n, k)] && before[c] == Checkpoint(v)
       && before <= after && Cut(after) == c
  }

  /** In any run, and with nodes that publish when they like: a node that has gone IDLE keeps its
      state for ever, and has consumed of each input everything up to the input's
      checkpoint. Once it has announced the checkpoint it holds it in its file. */
  lemma ConsistentCut<D>(net: Net<D>, v: string, before: seq<Action<D>>, after: seq<Action<D>>, n: string)
    requires Started(net) && n in Run(net, before, v).nodes && Run(net, before, v).nodes[n].node.state == IDLE
    ensures var s := Run(net, before, v);
            var t := Run(s, after, v);
            && n in t.nodes && Frozen(s.nodes[n], t.nodes[n])
            && (Announced(s.nodes[n]) ==>
                  s.nodes[n].node.lastCheckpoint == Some(v) && s.nodes[n].node.file == Saved(v, s.nodes[n].node.config))
            && forall k :: 0 <= k < |s.nodes[n].node.inputs| ==> CutConsumed(s, t, v, n, k)
  {
    StartedInv(net, v);
    RunKeepsInv(net, before, v);
    var s := Run(net, before, v);
    var t := Run(s, after, v);
    IdleStaysFrozen(s, after, v, n);
    RunIsLater(s, after, v);
    assert NodeInv(s.nodes[n], n in s.pending, v);
    forall k | 0 <= k < |s.nodes[n].node.inputs| ensures CutConsumed(s, t, v, n, k) {
      IdleConsumes(s, t, v, n, k);
    }
  }

  lemma IdleConsumes<D>(s: Net<D>, t: Net<D>, v: string, n: string, k: nat)
    requires Inv(s, v) && Later(s, t) && Edge(s, n, k) && s.nodes[n].node.state == IDLE
    ensures CutConsumed(s, t, v, n, k)
  {
    IdleHasConsumed(s, v, n, k);
    PassedIsConsumed(s, t, v, n, k);
  }

  lemma PassedIsConsumed<D>(s: Net<D>, t: Net<D>, v: string, n: string, k: nat)
    requires Wired(s) && NodesInv(s, v) && EdgeInv(s) && Later(s, t) && Edge(s, n, k) && Passed(s, n, k)
    ensures CutConsumed(s, t, v, n, k)
  {
    var i := s.nodes[n].node.inputs[k];
    assert Extends(s.nodes[n], t.nodes[n]) && Extends(s.nodes[i], t.nodes[i]);
    assert LogInv(s.nodes[i], v) by {
      assert NodeInv(s.nodes[i], i in s.pending, v);
    }
    CutStays(s.nodes[i].node.log, t.nodes[i].node.log, s.pos[(n, k)]);
  }

  // ---------- completeness ----------

  /** The master has reached every node, no handler is under way, and nothing is left to deliver. */
  ghost predicate Quiet<D>(net: Net<D>) {
    net.pending == {} && QuietOn(net, net.nodes.Keys)
  }

  /** The same as far as the nodes of a group are concerned. */
  ghost predicate QuietOn<D>(net: Net<D>, group: set<string>) {
    && (forall n :: n in group ==> n !in net.pending && (n in net.nodes ==> net.nodes[n].phase == Steady))
    && (forall n: string, k: nat :: n in group ==> !CanDeliver(net, n, k))
  }

  /** Nodes without repeated inputs, whose inputs are among them. */
  ghost predicate SoundGroup<D>(net: Net<D>, group: set<string>) {
    && group <= net.nodes.Keys
    && (forall n :: n in group ==> Distinct(net.nodes[n].node.inputs))
    && (forall n, k :: n in group && Edge(net, n, k) ==> net.nodes[n].node.inputs[k] in group)
  }

  ghost predicate AllIdle<D>(net: Net<D>) {
    forall n :: n in net.nodes ==> net.nodes[n].node.state == IDLE
  }

  function NonIdle<D>(net: Net<D>): set<string> {
    set n | n in net.nodes && net.nodes[n].node.state != IDLE
  }

  /** A node whose inputs are all IDLE and drained is IDLE itself. */
  lemma IdleInputsMakeIdle<D>(net: Net<D>, v: string, group: set<string>, n: string)
    requires Inv(net, v) && QuietOn(net, group) && SoundGroup(net, group) && n in group
    requires forall k :: Edge(net, n, k) ==> net.nodes[net.nodes[n].node.inputs[k]].node.state == IDLE
    ensures net.nodes[n].node.state == IDLE
  {
    var node := net.nodes[n].node;
    assert NodeInv(net.nodes[n], false, v);
    forall k | 0 <= k < |node.inputs| ensures node.inputs[k] in node.inputsCheckpoint {
      assert Edge(net, n, k);
      DrainedIsNoted(net, v, n, k);
    }
    CoveredIsIdle(net.nodes[n], v);
  }

  lemma DrainedIsNoted<D>(net: Net<D>, v: string, n: string, k: nat)
    requires Inv(net, v) && Edge(net, n, k) && !CanDeliver(net, n, k)
    requires Announced(net.nodes[net.nodes[n].node.inputs[k]])
    ensures net.nodes[n].node.inputs[k] in net.nodes[n].node.inputsCheckpoint
  {
    var s := net.nodes[n].node.inputs[k];
    assert LogInv(net.nodes[s], v) by {
      assert NodeInv(net.nodes[s], s in net.pending, v);
    }
    PassedIsNoted(net, n, k);
  }

  lemma PassedIsNoted<D>(net: Net<D>, n: string, k: nat)
    requires Wired(net) && EdgeInv(net) && Edge(net, n, k) && Passed(net, n, k)
    ensures net.nodes[n].node.inputs[k] in net.nodes[n].node.inputsCheckpoint
  {
    assert PassedFrom(net, n, net.nodes[n].node.inputs[k]);
  }

  lemma CoveredIsIdle<D>(p: Process<D>, v: string)
    requires NodeInv(p, false, v) && Distinct(p.node.inputs)
    requires forall k :: 0 <= k < |p.node.inputs| ==> p.node.inputs[k] in p.node.inputsCheckpoint
    ensures p.node.state == IDLE
  {
    assert p.node.inputsCheckpoint.Keys == ToSet(p.node.inputs);
    FullCover(p.node.inputsCheckpoint.Keys, p.node.inputs);
  }

  /** Where nothing is left to do for a group without repeated inputs, all of it is IDLE. */
  lemma QuietGroupIsIdle<D>(net: Net<D>, v: string, group: set<string>)
    requires Inv(net, v) && QuietOn(net, group) && SoundGroup(net, group) && Acyclic(InputsOf(net))
    ensures forall n :: n in group ==> Announced(net.nodes[n])
  {
    var s := NonIdle(net) * group;
    if s != {} {
      HasMinimal(InputsOf(net), s);
      var n :| n in s && !HasInputIn(InputsOf(net), s, n);
      forall k | Edge(net, n, k) ensures net.nodes[net.nodes[n].node.inputs[k]].node.state == IDLE {
        assert InputsOf(net)[n][k] !in s;
      }
      IdleInputsMakeIdle(net, v, group, n);
      assert false;
    }
    forall n | n in group ensures Announced(net.nodes[n]) {
      assert n !in s;
    }
  }

  lemma QuietIsIdle<D>(net: Net<D>, v: string)
    requires Inv(net, v) && Quiet(net) && AllDistinct(net) && Acyclic(InputsOf(net))
    ensures AllIdle(net)
  {
    QuietGroupIsIdle(net, v, net.nodes.Keys);
  }

  lemma IdleMeansDistinct<D>(net: Net<D>, v: string)
    requires Inv(net, v) && AllIdle(net)
    ensures AllDistinct(net)
  {
    forall n | n in net.nodes ensures Distinct(net.nodes[n].node.inputs) {
      IdleCoversInputs(net.nodes[n], n in net.pending, v);
    }
  }

  ghost predicate ChannelEmpty<D>(net: Net<D>, n: string, k: int)
    requires Edge(net, n, k)
  {
    && (n, k) in net.pos && net.nodes[n].node.inputs[k] in net.nodes
    && net.pos[(n, k)] == |InputLog(net, n, k)|
  }

  ghost predicate Holds<D>(p: Process<D>, v: string) {
    Announced(p) && p.node.lastCheckpoint == Some(v) && p.node.file == Saved(v, p.node.config)
  }

  /** On a graph that passes validation, a barrier that has come to rest is
      complete, every node IDLE with the value saved, exactly when no node lists
      an input twice (which validation does not check). Its channels are empty. */
  lemma BarrierCompletes<D>(net: Net<D>, v: string, actions: seq<Action<D>>)
    requires Started(net) && Acyclic(InputsOf(net)) && Quiet(Run(net, actions, v))
    ensures var t := Run(net, actions, v);
            && (AllIdle(t) <==> AllDistinct(net))
            && (AllDistinct(net) ==> forall n :: n in t.nodes ==> Holds(t.nodes[n], v))
            && (forall n, k :: Edge(t, n, k) ==> ChannelEmpty(t, n, k))
  {
    StartedInv(net, v);
    RunKeepsInv(net, actions, v);
    RunIsLater(net, actions, v);
    var t := Run(net, actions, v);
    LaterInputs(net, t);
    if AllDistinct(net) {
      QuietIsIdle(t, v);
      IdleHolds(t, v);
    } else if AllIdle(t) {
      IdleMeansDistinct(t, v);
    }
    QuietIsEmpty(t);
  }

  lemma IdleHolds<D>(t: Net<D>, v: string)
    requires NodesInv(t, v) && AllIdle(t) && forall n :: n in t.nodes ==> t.nodes[n].phase == Steady
    ensures forall n :: n in t.nodes ==> Holds(t.nodes[n], v)
  {
    forall n | n in t.nodes ensures Holds(t.nodes[n], v) {
      assert NodeInv(t.nodes[n], n in t.pending, v);
    }
  }

  lemma QuietIsEmpty<D>(t: Net<D>)
    requires Wired(t) && EdgeInv(t) && forall n: string, k: nat :: !CanDeliver(t, n, k)
    ensures forall n, k :: Edge(t, n, k) ==> ChannelEmpty(t, n, k)
  {
    forall n, k | Edge(t, n, k) ensures ChannelEmpty(t, n, k) {
      assert !CanDeliver(t, n, k);
    }
  }

  /** A node that lists an input twice never becomes IDLE, in any run. */
  lemma RepeatedInputBlocks<D>(net: Net<D>, v: string, actions: seq<Action<D>>, n: string)
    requires Started(net) && n in net.nodes && !Distinct(net.nodes[n].node.inputs)
    ensures n in Run(net, actions, v).nodes && Running(Run(net, actions, v).nodes[n].node.state)
  {
    StartedInv(net, v);
    RunKeepsInv(net, actions, v);
    RunIsLater(net, actions, v);
    var t := Run(net, actions, v);
    assert Extends(net.nodes[n], t.nodes[n]);
    assert NodeInv(t.nodes[n], n in t.pending, v);
    if t.nodes[n].node.state == IDLE {
      IdleCoversInputs(t.nodes[n], n in t.pending, v);
    }
  }

  // ---------- what the master sees ----------

  /** A node reports the value as its last checkpoint only once it has announced it. */
  ghost predicate ReportsTrue<D>(net: Net<D>, v: string) {
    forall n :: n in net.nodes && net.nodes[n].node.lastCheckpoint == Some(v) ==> Announced(net.nodes[n])
  }

  lemma StepReportsTrue<D>(net: Net<D>, a: Action<D>, v: string)
    requires Inv(net, v) && ReportsTrue(net, v)
    ensures ReportsTrue(Apply(net, a, v), v)
  {
    var net' := Apply(net, a, v);
    StepIsLater(net, a, v);
    forall n | n in net'.nodes && net'.nodes[n].node.lastCheckpoint == Some(v) ensures Announced(net'.nodes[n]) {
      if n != a.n {
        OthersStay(net, a, v, n);
      } else if net.nodes[n].node.state == IDLE {
        IdleIsFrozen(net, a, v, n);
        IdleReports(net, a, v, n);
      } else {
        RunningReports(net, a, v, n);
      }
    }
  }

  lemma IdleReports<D>(net: Net<D>, a: Action<D>, v: string, n: string)
    requires Inv(net, v) && n in net.nodes && a.n == n && net.nodes[n].node.state == IDLE
    requires Frozen(net.nodes[n], Apply(net, a, v).nodes[n])
    requires net.nodes[n].node.lastCheckpoint == Some(v) ==> Announced(net.nodes[n])
    requires Apply(net, a, v).nodes[n].node.lastCheckpoint == Some(v)
    ensures Announced(Apply(net, a, v).nodes[n])
  {
    var (p, p') := (net.nodes[n], Apply(net, a, v).nodes[n]);
    if !Announced(p) {
      assert p'.node.lastCheckpoint != p.node.lastCheckpoint;
      OnlyAnnouncingReports(net, a, v, n);
    }
  }

  lemma OnlyAnnouncingReports<D>(net: Net<D>, a: Action<D>, v: string, n: string)
    requires n in net.nodes && n in Apply(net, a, v).nodes
    requires Apply(net, a, v).nodes[n].node.lastCheckpoint != net.nodes[n].node.lastCheckpoint
    ensures a.Step? && a.n == n && net.nodes[n].phase.Announcing? && Apply(net, a, v).nodes[n].phase == Steady
  {
    if a.n != n {
      OthersStay(net, a, v, n);
    } else if a.Deliver? && CanDeliver(net, n, a.k) && IsData(a.out) {
      DeliverResult(net, v, n, a.k, a.out);
      ReceiveReportsNothing(net.nodes[n], net.nodes[n].node.inputs[a.k], NextMessage(net, n, a.k), a.out);
    }
  }

  lemma ReceiveReportsNothing<D>(p: Process<D>, source: string, m: Message<D>, out: seq<Message<D>>)
    ensures var p' := Receive(p, source, m, out).0; p'.node.lastCheckpoint == p.node.lastCheckpoint
  {
    if m.Checkpoint? {
      BeginReportsNothing(p, source, m.value);
    }
  }

  lemma BeginReportsNothing<D>(p: Process<D>, source: string, value: string)
    ensures BeginCheckpoint(p, source, value).0.node.lastCheckpoint == p.node.lastCheckpoint
  {
  }

  lemma RunningReports<D>(net: Net<D>, a: Action<D>, v: string, n: string)
    requires Inv(net, v) && ReportsTrue(net, v) && n in net.nodes && n in Apply(net, a, v).nodes
    requires a.n == n && net.nodes[n].node.state != IDLE
    ensures Apply(net, a, v).nodes[n].node.lastCheckpoint != Some(v)
  {
    assert NodeInv(net.nodes[n], n in net.pending, v);
    if Apply(net, a, v).nodes[n].node.lastCheckpoint != net.nodes[n].node.lastCheckpoint {
      OnlyAnnouncingReports(net, a, v, n);
    }
  }

  lemma {:induction false} RunReportsTrue<D>(net: Net<D>, v: string, actions: seq<Action<D>>)
    requires Inv(net, v) && ReportsTrue(net, v)
    ensures Inv(Run(net, actions, v), v) && ReportsTrue(Run(net, actions, v), v)
    decreases |actions|
  {
    if actions != [] {
      StepReportsTrue(net, actions[0], v);
      ApplyKeepsInv(net, actions[0], v);
      RunReportsTrue(Apply(net, actions[0], v), v, actions[1..]);
    }
  }

  /** Node n reported the value at some moment of the run. */
  ghost predicate Reported<D>(net: Net<D>, v: string, actions: seq<Action<D>>, n: string) {
    exists i :: 0 <= i <= |actions| && ReportedAt(net, v, actions[..i], n)
  }

  ghost predicate ReportedAt<D>(net: Net<D>, v: string, actions: seq<Action<D>>, n: string) {
    var t := Run(net, actions, v);
    n in t.nodes && t.nodes[n].node.lastCheckpoint == Some(v)
  }

  /** The master's verdict is sound, although its answers come from different moments: if every
      node has reported the fresh value at some moment of the run, then at its end every
      node is IDLE and holds the value in its file. */
  lemma AllGoodIsTrue<D>(net: Net<D>, v: string, actions: seq<Action<D>>)
    requires Started(net) && forall n :: n in net.nodes ==> net.nodes[n].node.lastCheckpoint != Some(v)
    requires forall n :: n in net.nodes ==> Reported(net, v, actions, n)
    ensures forall n :: n in net.nodes ==> n in Run(net, actions, v).nodes && Holds(Run(net, actions, v).nodes[n], v)
  {
    StartedInv(net, v);
    forall n | n in net.nodes ensures n in Run(net, actions, v).nodes && Holds(Run(net, actions, v).nodes[n], v) {
      ReportedHolds(net, v, actions, n);
    }
  }

  lemma ReportedHolds<D>(net: Net<D>, v: string, actions: seq<Action<D>>, n: string)
    requires Inv(net, v) && ReportsTrue(net, v) && Reported(net, v, actions, n)
    ensures n in Run(net, actions, v).nodes && Holds(Run(net, actions, v).nodes[n], v)
  {
    var i: nat :| i <= |actions| && ReportedAt(net, v, actions[..i], n);
    ReportHolds(net, v, actions[..i], actions[i..], n);
    assert actions[..i] + actions[i..] == actions;
  }

  lemma ReportHolds<D>(net: Net<D>, v: string, before: seq<Action<D>>, after: seq<Action<D>>, n: string)
    requires Inv(net, v) && ReportsTrue(net, v) && ReportedAt(net, v, before, n)
    ensures n in Run(net, before + after, v).nodes && Holds(Run(net, before + after, v).nodes[n], v)
  {
    var s := Run(net, before, v);
    RunReportsTrue(net, v, before);
    IdleStaysFrozen(s, after, v, n);
    RunConcat(net, before, after, v);
    AnnouncedHolds(s.nodes[n], n in s.pending, v);
  }

  lemma AnnouncedHolds<D>(p: Process<D>, pending: bool, v: string)
    requires NodeInv(p, pending, v) && Announced(p)
    ensures Holds(p, v)
  {
  }

  lemma {:induction false} RunConcat<D>(net: Net<D>, a: seq<Action<D>>, b: seq<Action<D>>, v: string)
    ensures Run(net, a + b, v) == Run(Run(net, a, v), b, v)
    decreases |a|
  {
    if a == [] {
      assert a + b == b;
    } else {
      assert (a + b)[1..] == a[1..] + b;
      RunConcat(Apply(net, a[0], v), a[1..], b, v);
    }
  }

  // ---------- progress ----------

  /** Messages published and not yet read, one per subscription. */
  function Unread<D>(net: Net<D>): set<(string, nat, nat)> {
    set n: string, k: nat, p: nat |
      n in net.nodes && k < |net.nodes[n].node.inputs| && net.nodes[n].node.inputs[k] in net.nodes &&
          (n, k) in net.pos &&
      net.pos[(n, k)] <= p < |InputLog(net, n, k)| :: (n, k, p)
  }

  function StepsLeft(phase: Phase): nat {
    match phase
    case Steady => 0
    case Removing => 2
    case Finishing => 1
    case Opening(_) => 3
    case Writing(_) => 2
    case Announcing(_) => 1
  }

  /** Steps of handlers still to be taken. */
  function Unfinished<D>(net: Net<D>): set<(string, nat)> {
    set n: string, r: nat | n in net.nodes && r < StepsLeft(net.nodes[n].phase) :: (n, r)
  }

  lemma ReplacedStates<D>(net: Net<D>, t: Net<D>, n: string, p: Process<D>)
    requires n in net.nodes && t.nodes == net.nodes[n := p]
    ensures p.node.state == net.nodes[n].node.state ==> NonIdle(t) == NonIdle(net)
    ensures p.node.state == IDLE && net.nodes[n].node.state != IDLE ==> NonIdle(t) < NonIdle(net)
    ensures p.phase == net.nodes[n].phase ==> Unfinished(t) == Unfinished(net)
    ensures StepsLeft(p.phase) < StepsLeft(net.nodes[n].phase) ==> Unfinished(t) < Unfinished(net)
  {
    assert forall m, r :: m != n ==> ((m, r) in Unfinished(t) <==> (m, r) in Unfinished(net));
    if p.node.state == IDLE && net.nodes[n].node.state != IDLE {
      assert n in NonIdle(net) && n !in NonIdle(t);
    }
    if StepsLeft(p.phase) < StepsLeft(net.nodes[n].phase) {
      var r := StepsLeft(p.phase);
      assert (n, r) in Unfinished(net) && (n, r) !in Unfinished(t);
    }
  }

  lemma QuietHandler<D>(p: Process<D>, source: string, m: Message<D>)
    ensures var p' := Receive(p, source, m, []).0;
            && p'.node.inputs == p.node.inputs && p'.node.log == p.node.log
            && (p.node.state == IDLE ==> p'.node.state == IDLE)
            && (p.node.state == IDLE || p'.node.state != IDLE ==> p'.phase == p.phase)
  {
    assert p.node.log + [] == p.node.log;
  }

  /** Reading with no reaction idles the reader or leaves strictly less unread. */
  lemma DeliverProgress<D>(net: Net<D>, v: string, n: string, k: nat)
    requires Inv(net, v) && CanDeliver(net, n, k)
    ensures var t := Apply(net, Deliver(n, k, []), v);
            && t.pending == net.pending
            && (NonIdle(t) < NonIdle(net) ||
                (NonIdle(t) == NonIdle(net) && Unfinished(t) == Unfinished(net) && Unread(t) < Unread(net)))
  {
    var p := net.nodes[n];
    var p' := Receive(p, p.node.inputs[k], NextMessage(net, n, k), []).0;
    var t := Apply(net, Deliver(n, k, []), v);
    DeliverResult(net, v, n, k, []);
    QuietHandler(p, p.node.inputs[k], NextMessage(net, n, k));
    DeliveredProgress(net, t, n, k, p');
  }

  lemma DeliveredProgress<D>(net: Net<D>, t: Net<D>, n: string, k: nat, p: Process<D>)
    requires CanDeliver(net, n, k) && t.nodes == net.nodes[n := p] && t.pos == Read(net, n, k)
    requires p.node.inputs == net.nodes[n].node.inputs && p.node.log == net.nodes[n].node.log
    requires net.nodes[n].node.state == IDLE ==> p.node.state == IDLE
    requires net.nodes[n].node.state == IDLE || p.node.state != IDLE ==> p.phase == net.nodes[n].phase
    ensures NonIdle(t) < NonIdle(net) ||
            (NonIdle(t) == NonIdle(net) && Unfinished(t) == Unfinished(net) && Unread(t) < Unread(net))
  {
    ReplacedStates(net, t, n, p);
    if p.node.state != IDLE {
      SameStates(net, t, n, p);
    }
    LessUnread(net, t, n, k, p);
  }

  lemma SameStates<D>(net: Net<D>, t: Net<D>, n: string, p: Process<D>)
    requires n in net.nodes && t.nodes == net.nodes[n := p]
    requires p.node.state != IDLE && net.nodes[n].node.state != IDLE
    ensures NonIdle(t) == NonIdle(net)
  {
  }

  lemma LessUnread<D>(net: Net<D>, t: Net<D>, n: string, k: nat, p: Process<D>)
    requires CanDeliver(net, n, k) && t.nodes == net.nodes[n := p] && t.pos == Read(net, n, k)
    requires p.node.inputs == net.nodes[n].node.inputs && p.node.log == net.nodes[n].node.log
    ensures Unread(t) < Unread(net)
  {
    var q := net.pos[(n, k)];
    assert (n, k, q) in Unread(net) && (n, k, q) !in Unread(t);
  }

  lemma CommandProgress<D>(net: Net<D>, v: string, n: string)
    requires Inv(net, v) && n in net.pending && n in net.nodes
    ensures var t := Apply(net, Command(n), v);
            && t.pending < net.pending
            && (NonIdle(t) < NonIdle(net) || (NonIdle(t) == NonIdle(net) && Unfinished(t) == Unfinished(net)))
  {
    var p := net.nodes[n];
    assert NodeInv(p, true, v);
    ReplacedStates(net, Apply(net, Command(n), v), n, BeginMgmtCheckpoint(p, v));
  }

  lemma StepProgress<D>(net: Net<D>, v: string, n: string)
    requires Inv(net, v) && n in net.nodes && net.nodes[n].phase != Steady
    ensures var t := Apply(net, Step(n), v);
            && t.pending == net.pending && NonIdle(t) == NonIdle(net) && Unfinished(t) < Unfinished(net)
  {
    var p := net.nodes[n];
    AdvanceFinishes(p, n in net.pending, v);
    StepResult(net, v, n);
    ReplacedStates(net, net.(nodes := net.nodes[n := Advance(p)]), n, Advance(p));
  }

  lemma StepResult<D>(net: Net<D>, v: string, n: string)
    requires n in net.nodes
    ensures Apply(net, Step(n), v) == net.(nodes := net.nodes[n := Advance(net.nodes[n])])
  {
  }

  lemma AdvanceFinishes<D>(p: Process<D>, pending: bool, v: string)
    requires NodeInv(p, pending, v) && p.phase != Steady
    ensures StepsLeft(Advance(p).phase) < StepsLeft(p.phase) && Advance(p).node.state == p.node.state
  {
  }

  /** Commands, steps and deliveries at nodes of the group. */
  ghost predicate WorkOf<D>(actions: seq<Action<D>>, group: set<string>) {
    forall a :: a in actions ==> a.n in group && !a.Emit?
  }

  /** From every state a finite run leaves nothing to do for a group of nodes. */
  lemma QuietenGroup<D>(net: Net<D>, v: string, group: set<string>) returns (actions: seq<Action<D>>)
    requires Inv(net, v) && group <= net.nodes.Keys
    ensures WorkOf(actions, group) && QuietOn(Run(net, actions, v), group)
    decreases NonIdle(net), Unfinished(net), net.pending, Unread(net)
  {
    var a: Action<D>;
    if n: string :| n in net.pending && n in group {
      a := Command(n);
      CommandProgress(net, v, n);
    } else if n: string :| n in group && net.nodes[n].phase != Steady {
      a := Step(n);
      StepProgress(net, v, n);
    } else if n: string, k: nat :| n in group && CanDeliver(net, n, k) {
      a := Deliver(n, k, []);
      DeliverProgress(net, v, n, k);
    } else {
      return [];
    }
    ApplyKeepsInv(net, a, v);
    StepIsLater(net, a, v);
    var rest := QuietenGroup(Apply(net, a, v), v, group);
    FirstStep(net, v, a, rest);
    actions := [a] + rest;
  }

  /** From every state of a barrier without repeated inputs a finite run completes it. */
  lemma BarrierCanComplete<D>(net: Net<D>, v: string) returns (actions: seq<Action<D>>)
    requires Inv(net, v) && AllDistinct(net) && Acyclic(InputsOf(net))
    ensures AllIdle(Run(net, actions, v))
  {
    actions := QuietenGroup(net, v, net.nodes.Keys);
    RunKeepsInv(net, actions, v);
    RunIsLater(net, actions, v);
    var t := Run(net, actions, v);
    LaterInputs(net, t);
    QuietGroupIsIdle(t, v, t.nodes.Keys);
  }

  lemma FirstStep<D>(net: Net<D>, v: string, a: Action<D>, rest: seq<Action<D>>)
    ensures Run(net, [a] + rest, v) == Run(Apply(net, a, v), rest, v)
  {
    assert ([a] + rest)[1..] == rest;
  }
}
