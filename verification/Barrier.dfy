/** The checkpoint barrier: nodes joined by topics, each subscription reading its
    source's log in order, while the master sends one checkpoint value to every
    node. Any node may publish at any time, also one that is IDLE. */
module Barrier {
  import opened Options
  import opened Nodes
  import opened Handlers
  import opened Graphs

  /** A node subscribes once per entry of its input list; positions are per entry. */
  datatype Net<D> = Net(
    nodes: map<string, Process<D>>,
    pos: map<(string, nat), nat>,
    pending: set<string>,              // nodes the master has still to send the checkpoint to
    raised: nat)                       // assertions raised by handlers (logged, message lost)

  datatype Action<D> =
    | Command(n: string)                                        // master to node
    | Deliver(n: string, k: nat, out: seq<Message<D>>)          // next message of input k; out is the reaction
    | Emit(n: string, out: seq<Message<D>>)                     // updates and withdraws, in any state
    | Step(n: string)                                           // next step of the node's handler

  function Apply<D>(net: Net<D>, a: Action<D>, v: string): Net<D> {
    match a
    case Command(n) =>
      if n !in net.nodes || n !in net.pending then net
      else net.(nodes := net.nodes[n := BeginMgmtCheckpoint(net.nodes[n], v)], pending := net.pending - {n})
    case Emit(n, out) =>
      if n !in net.nodes || !IsData(out) then net
      else net.(nodes := net.nodes[n := Emitted(net.nodes[n], out)])
    case Step(n) =>
      if n !in net.nodes then net else net.(nodes := net.nodes[n := Advance(net.nodes[n])])
    case Deliver(n, k, out) =>
      if !CanDeliver(net, n, k) || !IsData(out) then net else
      var (p, r) := Receive(net.nodes[n], net.nodes[n].node.inputs[k], NextMessage(net, n, k), out);
      Net(net.nodes[n := p], Read(net, n, k), net.pending, if r.Raised? then net.raised + 1 else net.raised)
  }

  function Emitted<D>(p: Process<D>, out: seq<Message<D>>): Process<D> {
    p.(node := Publish(p.node, out))
  }

  predicate CanDeliver<D>(net: Net<D>, n: string, k: nat) {
    && n in net.nodes && k < |net.nodes[n].node.inputs| && (n, k) in net.pos
    && net.nodes[n].node.inputs[k] in net.nodes
    && net.pos[(n, k)] < |net.nodes[net.nodes[n].node.inputs[k]].node.log|
  }

  function Read<D>(net: Net<D>, n: string, k: nat): map<(string, nat), nat>
    requires (n, k) in net.pos
  {
    net.pos[(n, k) := net.pos[(n, k)] + 1]
  }

  function NextMessage<D>(net: Net<D>, n: string, k: nat): Message<D>
    requires CanDeliver(net, n, k)
  {
    net.nodes[net.nodes[n].node.inputs[k]].node.log[net.pos[(n, k)]]
  }

  function Run<D>(net: Net<D>, actions: seq<Action<D>>, v: string): Net<D>
    decreases |actions|
  {
    if actions == [] then net else Run(Apply(net, actions[0], v), actions[1..], v)
  }

  // ---------- invariant ----------

  /** Place of the first checkpoint in a log, or the log's length. */
  function Cut<D>(log: seq<Message<D>>): (c: nat)
    ensures c <= |log|
    ensures forall j :: 0 <= j < c ==> !log[j].Checkpoint?
    ensures c < |log| ==> log[c].Checkpoint?
  {
    if log == [] || log[0].Checkpoint? then 0 else
    var c := Cut(log[1..]);
    assert forall j :: 1 <= j < c + 1 ==> log[j] == log[1..][j - 1];
    c + 1
  }

  lemma CutIs<D>(log: seq<Message<D>>, c: nat)
    requires c <= |log| && (c < |log| ==> log[c].Checkpoint?)
    requires forall j :: 0 <= j < c ==> !log[j].Checkpoint?
    ensures Cut(log) == c
  {
  }

  /** A position is behind the cut of a log or not, however the log grows. */
  lemma CutStays<D>(log: seq<Message<D>>, log': seq<Message<D>>, p: nat)
    requires log <= log' && p <= |log|
    ensures p > Cut(log) <==> p > Cut(log')
    ensures Cut(log) < |log| ==> Cut(log') == Cut(log)
    ensures Cut(log') >= Cut(log)
  {
    assert forall j :: 0 <= j < |log| ==> log[j] == log'[j];
    if Cut(log) < |log| {
      CutIs(log', Cut(log));
    }
  }

  ghost predicate Edge<D>(net: Net<D>, n: string, k: int) {
    n in net.nodes && 0 <= k < |net.nodes[n].node.inputs|
  }

  /** What validate_config accepts, acyclicity apart: inputs are nodes with an output. */
  ghost predicate Wired<D>(net: Net<D>) {
    forall n, k :: Edge(net, n, k) ==>
      && net.nodes[n].node.inputs[k] in net.nodes && net.nodes[net.nodes[n].node.inputs[k]].node.hasOutput
      && (n, k) in net.pos
  }

  /** What input k of n has published. */
  function InputLog<D>(net: Net<D>, n: string, k: int): seq<Message<D>>
    requires n in net.nodes && 0 <= k < |net.nodes[n].node.inputs|
    requires net.nodes[n].node.inputs[k] in net.nodes
  {
    net.nodes[net.nodes[n].node.inputs[k]].node.log
  }

  /** All nodes started, no checkpoint under way; positions and traffic are arbitrary. */
  ghost predicate Started<D>(net: Net<D>) {
    && Wired(net)
    && net.pending == net.nodes.Keys && net.raised == 0
    && (forall n :: n in net.nodes ==>
          && net.nodes[n].phase == Steady
          && net.nodes[n].node.state == STARTED && net.nodes[n].node.inputsCheckpoint == map[]
          && net.nodes[n].node.file == Missing && IsData(net.nodes[n].node.log))
    && (forall n, k :: Edge(net, n, k) ==> net.pos[(n, k)] <= |InputLog(net, n, k)|)
  }

  /** IDLE, with nothing left to do for it. */
  predicate Announced<D>(p: Process<D>) { p.node.state == IDLE && p.phase == Steady }

  /** One checkpoint in the log of a node that has announced it, none before. */
  ghost predicate LogInv<D>(p: Process<D>, v: string) {
    var log := p.node.log;
    if Announced(p) && p.node.hasOutput then
      && Cut(log) < |log| && log[Cut(log)] == Checkpoint(v)
      && forall j :: Cut(log) < j < |log| ==> !log[j].Checkpoint?
    else Cut(log) == |log|
  }

  ghost predicate FileFits<D>(p: Process<D>, v: string) {
    match p.phase
    case Steady =>
      if p.node.state == IDLE then p.node.lastCheckpoint == Some(v) && p.node.file == Saved(v, p.node.config)
      else p.node.file == Missing
    case Opening(w) => w == v && p.node.file == Missing
    case Writing(w) => w == v && p.node.file == Empty
    case Announcing(w) => w == v && p.node.file == Saved(v, p.node.config)
    case _ => false
  }

  ghost predicate NodeInv<D>(p: Process<D>, pending: bool, v: string) {
    var n := p.node;
    && (Running(n.state) || n.state == IDLE)
    && (p.phase != Steady ==> n.state == IDLE)
    && (forall s :: s in n.inputsCheckpoint ==> s in n.inputs && n.inputsCheckpoint[s] == v)
    && (n.inputs == [] ==> n.state == (if pending then STARTED else IDLE))
    && (n.inputs != [] ==>
          && (n.state == IDLE <==> |n.inputsCheckpoint| == |n.inputs|)
          && (n.state == STARTED <==> n.inputsCheckpoint == map[]))
    && FileFits(p, v)
    && LogInv(p, v)
  }

  /** Input k of n has been read past the checkpoint. */
  ghost predicate Passed<D>(net: Net<D>, n: string, k: int)
    requires Wired(net) && Edge(net, n, k)
  {
    net.pos[(n, k)] > Cut(InputLog(net, n, k))
  }

  ghost predicate PassedFrom<D>(net: Net<D>, n: string, s: string)
    requires Wired(net) && n in net.nodes
  {
    exists k :: Edge(net, n, k) && net.nodes[n].node.inputs[k] == s && Passed(net, n, k)
  }

  ghost predicate EdgeInv<D>(net: Net<D>)
    requires Wired(net)
  {
    && (forall n, k :: Edge(net, n, k) ==> net.pos[(n, k)] <= |InputLog(net, n, k)|)
    && (forall n, s :: n in net.nodes ==> (s in net.nodes[n].node.inputsCheckpoint <==> PassedFrom(net, n, s)))
  }

  ghost predicate NodesInv<D>(net: Net<D>, v: string) {
    forall n :: n in net.nodes ==> NodeInv(net.nodes[n], n in net.pending, v)
  }

  ghost predicate Inv<D>(net: Net<D>, v: string) {
    Wired(net) && NodesInv(net, v) && EdgeInv(net)
  }

  lemma StartedInv<D>(net: Net<D>, v: string)
    requires Started(net)
    ensures Inv(net, v)
  {
    forall n | n in net.nodes ensures NodeInv(net.nodes[n], n in net.pending, v) {
      StartedNodeInv(net.nodes[n], v);
    }
    forall n, s | n in net.nodes ensures !PassedFrom(net, n, s) {
      forall k | Edge(net, n, k) ensures !Passed(net, n, k) {
        CutIs(InputLog(net, n, k), |InputLog(net, n, k)|);
      }
    }
  }

  lemma StartedNodeInv<D>(p: Process<D>, v: string)
    requires p.phase == Steady && p.node.state == STARTED && p.node.inputsCheckpoint == map[]
    requires p.node.file == Missing && IsData(p.node.log)
    ensures NodeInv(p, true, v)
  {
    CutIs(p.node.log, |p.node.log|);
  }

  lemma IdleCoversInputs<D>(p: Process<D>, pending: bool, v: string)
    requires NodeInv(p, pending, v) && p.node.state == IDLE
    ensures Distinct(p.node.inputs)
    ensures forall k :: 0 <= k < |p.node.inputs| ==> p.node.inputs[k] in p.node.inputsCheckpoint
  {
    var n := p.node;
    if n.inputs != [] {
      FullCover(n.inputsCheckpoint.Keys, n.inputs);
      assert forall k :: 0 <= k < |n.inputs| ==> n.inputs[k] in ToSet(n.inputs);
    }
  }

  /** The cut is consistent: an IDLE node has read every input past its checkpoint,
      and its input list has no repetition. */
  lemma IdleHasConsumed<D>(net: Net<D>, v: string, n: string, k: nat)
    requires Inv(net, v) && Edge(net, n, k) && net.nodes[n].node.state == IDLE
    ensures Passed(net, n, k) && Announced(net.nodes[net.nodes[n].node.inputs[k]])
  {
    var p := net.nodes[n];
    assert NodeInv(p, n in net.pending, v);
    IdleCoversInputs(p, n in net.pending, v);
    var s := p.node.inputs[k];
    assert PassedFrom(net, n, s);
    var k' :| Edge(net, n, k') && p.node.inputs[k'] == s && Passed(net, n, k');
    assert k' == k;
    PassedIsAnnounced(net, v, n, k);
  }

  lemma PassedIsAnnounced<D>(net: Net<D>, v: string, n: string, k: nat)
    requires Inv(net, v) && Edge(net, n, k) && Passed(net, n, k)
    ensures Announced(net.nodes[net.nodes[n].node.inputs[k]])
  {
    var s := net.nodes[n].node.inputs[k];
    assert NodeInv(net.nodes[s], s in net.pending, v);
  }

  // ---------- what each handler keeps of its own node ----------

  /** p became p' by a step that leaves the wiring and only adds to the log. */
  ghost predicate Extends<D>(p: Process<D>, p': Process<D>) {
    && p'.node.inputs == p.node.inputs && p'.node.hasOutput == p.node.hasOutput
    && p.node.log <= p'.node.log
  }

  lemma PublishedData<D>(p: Process<D>, p': Process<D>, out: seq<Message<D>>, v: string)
    requires LogInv(p, v) && IsData(out)
    requires p'.node.hasOutput == p.node.hasOutput && p'.node.log == p.node.log + out
    requires Announced(p') == Announced(p)
    ensures LogInv(p', v)
  {
    var log, log' := p.node.log, p'.node.log;
    if Cut(log) == |log| {
      CutIs(log', |log'|);
    } else {
      CutIs(log', Cut(log));
    }
  }

  lemma EmittedInv<D>(p: Process<D>, pending: bool, v: string, out: seq<Message<D>>)
    requires NodeInv(p, pending, v) && IsData(out)
    ensures NodeInv(Emitted(p, out), pending, v) && Extends(p, Emitted(p, out))
    ensures Emitted(p, out).node.inputsCheckpoint == p.node.inputsCheckpoint
  {
    if p.node.hasOutput {
      PublishedData(p, Emitted(p, out), out, v);
    }
  }

  lemma CommandInv<D>(p: Process<D>, v: string)
    requires NodeInv(p, true, v)
    ensures var p' := BeginMgmtCheckpoint(p, v);
            NodeInv(p', false, v) && Extends(p, p') && p'.node.inputsCheckpoint == p.node.inputsCheckpoint
  {
  }

  lemma AdvanceInv<D>(p: Process<D>, pending: bool, v: string)
    requires NodeInv(p, pending, v)
    ensures var p' := Advance(p);
            NodeInv(p', pending, v) && Extends(p, p') && p'.node.inputsCheckpoint == p.node.inputsCheckpoint
  {
    if p.phase.Announcing? && p.node.hasOutput {
      CutIs(p.node.log + [Checkpoint(v)], |p.node.log|);
    }
  }

  lemma DataInv<D>(p: Process<D>, pending: bool, v: string, source: string, m: Message<D>, out: seq<Message<D>>)
    requires NodeInv(p, pending, v) && IsData(out) && !m.Checkpoint?
    ensures var (p', r) := Receive(p, source, m, out);
            && NodeInv(p', pending, v) && Extends(p, p') && p'.node.inputsCheckpoint == p.node.inputsCheckpoint
            && (r == Raised <==> Running(p.node.state) && source in p.node.inputsCheckpoint)
  {
    var p' := Receive(p, source, m, out).0;
    if Running(p.node.state) && source !in p.node.inputsCheckpoint {
      EmittedInv(p, pending, v, out);
      assert p' == Emitted(p, out);
    } else {
      assert p' == p.(node := p.node.(wrongState := p'.node.wrongState));
    }
  }

  lemma CheckpointInv<D>(p: Process<D>, pending: bool, v: string, source: string)
    requires NodeInv(p, pending, v) && Running(p.node.state) && source in p.node.inputs
    ensures var (p', r) := BeginCheckpoint(p, source, v);
            && r == Handled && NodeInv(p', pending, v) && Extends(p, p')
            && p'.node.inputsCheckpoint == p.node.inputsCheckpoint[source := v]
  {
    var n := p.node;
    var keys := n.inputsCheckpoint[source := v];
    assert source in keys;
    FullCover(keys.Keys, n.inputs) by {
      assert keys.Keys <= ToSet(n.inputs);
    }
  }

  // ---------- edges ----------

  ghost predicate SameWiring<D>(net: Net<D>, net': Net<D>) {
    && net'.nodes.Keys == net.nodes.Keys && net'.pos.Keys == net.pos.Keys
    && forall n :: n in net.nodes ==> Extends(net.nodes[n], net'.nodes[n])
  }

  lemma SameWired<D>(net: Net<D>, net': Net<D>)
    requires Wired(net) && SameWiring(net, net')
    ensures Wired(net')
    ensures forall n, k :: Edge(net, n, k) <==> Edge(net', n, k)
  {
    forall n, k ensures Edge(net, n, k) <==> Edge(net', n, k) {
      if n in net.nodes {
        assert Extends(net.nodes[n], net'.nodes[n]);
      }
    }
    forall n, k | Edge(net', n, k)
      ensures net'.nodes[n].node.inputs[k] in net'.nodes
      ensures net'.nodes[net'.nodes[n].node.inputs[k]].node.hasOutput && (n, k) in net'.pos
    {
      assert Edge(net, n, k) && Extends(net.nodes[n], net'.nodes[n]);
      assert Extends(net.nodes[net.nodes[n].node.inputs[k]], net'.nodes[net.nodes[n].node.inputs[k]]);
    }
  }

  /** An edge whose position stays is passed or not as before. */
  lemma EdgeStays<D>(net: Net<D>, net': Net<D>, n: string, k: nat)
    requires Wired(net) && Wired(net') && SameWiring(net, net') && Edge(net, n, k) && Edge(net', n, k)
    requires net'.pos[(n, k)] == net.pos[(n, k)] <= |InputLog(net, n, k)|
    ensures net'.pos[(n, k)] <= |InputLog(net', n, k)|
    ensures Passed(net', n, k) <==> Passed(net, n, k)
  {
    var s := net.nodes[n].node.inputs[k];
    assert Extends(net.nodes[n], net'.nodes[n]) && Extends(net.nodes[s], net'.nodes[s]);
    CutStays(net.nodes[s].node.log, net'.nodes[s].node.log, net.pos[(n, k)]);
  }

  ghost predicate SamePassed<D>(net: Net<D>, net': Net<D>, n: string, k: int)
    requires Wired(net) && Wired(net') && Edge(net, n, k)
  {
    && Edge(net', n, k) && net'.nodes[n].node.inputs == net.nodes[n].node.inputs
    && net'.pos[(n, k)] <= |InputLog(net', n, k)|
    && (Passed(net', n, k) <==> Passed(net, n, k))
  }

  /** Nothing newly passed, nothing newly noted as checkpointed. */
  lemma SameEdges<D>(net: Net<D>, net': Net<D>)
    requires Wired(net) && EdgeInv(net) && Wired(net') && SameWiring(net, net')
    requires forall n :: n in net.nodes ==> net'.nodes[n].node.inputsCheckpoint == net.nodes[n].node.inputsCheckpoint
    requires forall n, k :: Edge(net, n, k) ==> SamePassed(net, net', n, k)
    ensures EdgeInv(net')
  {
    SameWired(net, net');
    forall n, s | n in net'.nodes ensures PassedFrom(net', n, s) <==> PassedFrom(net, n, s) {
      SamePassedFrom(net, net', n, s);
    }
    forall n, k | Edge(net', n, k) ensures net'.pos[(n, k)] <= |InputLog(net', n, k)| {
      assert SamePassed(net, net', n, k);
    }
  }

  lemma SamePassedFrom<D>(net: Net<D>, net': Net<D>, n: string, s: string)
    requires Wired(net) && Wired(net') && SameWiring(net, net') && n in net.nodes
    requires forall k :: Edge(net, n, k) ==> SamePassed(net, net', n, k)
    ensures PassedFrom(net', n, s) <==> PassedFrom(net, n, s)
  {
    SameWired(net, net');
    if PassedFrom(net', n, s) {
      var k :| Edge(net', n, k) && net'.nodes[n].node.inputs[k] == s && Passed(net', n, k);
      assert Edge(net, n, k) && SamePassed(net, net', n, k);
    }
    if PassedFrom(net, n, s) {
      var k :| Edge(net, n, k) && net.nodes[n].node.inputs[k] == s && Passed(net, n, k);
      assert SamePassed(net, net', n, k);
    }
  }

  lemma ReplacedWiring<D>(net: Net<D>, net': Net<D>, n: string, p: Process<D>)
    requires n in net.nodes && Extends(net.nodes[n], p)
    requires net'.nodes == net.nodes[n := p] && net'.pos.Keys == net.pos.Keys
    ensures SameWiring(net, net')
  {
  }

  /** One node is replaced, no position moves. */
  lemma ReplacedEdges<D>(net: Net<D>, net': Net<D>, n: string, p: Process<D>)
    requires Wired(net) && EdgeInv(net) && n in net.nodes && Extends(net.nodes[n], p)
    requires p.node.inputsCheckpoint == net.nodes[n].node.inputsCheckpoint
    requires net'.nodes == net.nodes[n := p] && net'.pos == net.pos
    ensures Wired(net') && EdgeInv(net')
  {
    ReplacedWiring(net, net', n, p);
    SameWired(net, net');
    forall m, k | Edge(net, m, k) ensures SamePassed(net, net', m, k) {
      EdgeStays(net, net', m, k);
      assert Extends(net.nodes[m], net'.nodes[m]);
    }
    SameEdges(net, net');
  }

  lemma ReplacedNodes<D>(net: Net<D>, net': Net<D>, n: string, p: Process<D>, v: string)
    requires NodesInv(net, v) && n in net.nodes && net'.nodes == net.nodes[n := p]
    requires NodeInv(p, n in net'.pending, v)
    requires forall m :: m != n ==> (m in net'.pending <==> m in net.pending)
    ensures NodesInv(net', v)
  {
    forall m | m in net'.nodes ensures NodeInv(net'.nodes[m], m in net'.pending, v) {
      if m != n {
        assert NodeInv(net.nodes[m], m in net.pending, v);
      }
    }
  }

  lemma CommandKeepsInv<D>(net: Net<D>, v: string, n: string)
    requires Inv(net, v) && n in net.nodes && n in net.pending
    ensures Inv(Apply(net, Command(n), v), v)
  {
    var p := BeginMgmtCheckpoint(net.nodes[n], v);
    assert NodeInv(net.nodes[n], true, v);
    CommandInv(net.nodes[n], v);
    ReplacedNodes(net, Apply(net, Command(n), v), n, p, v);
    ReplacedEdges(net, Apply(net, Command(n), v), n, p);
  }

  lemma EmitKeepsInv<D>(net: Net<D>, v: string, n: string, out: seq<Message<D>>)
    requires Inv(net, v) && n in net.nodes && IsData(out)
    ensures Inv(Apply(net, Emit(n, out), v), v)
  {
    var p := Emitted(net.nodes[n], out);
    EmittedInv(net.nodes[n], n in net.pending, v, out);
    ReplacedNodes(net, Apply(net, Emit(n, out), v), n, p, v);
    ReplacedEdges(net, Apply(net, Emit(n, out), v), n, p);
  }

  lemma StepKeepsInv<D>(net: Net<D>, v: string, n: string)
    requires Inv(net, v) && n in net.nodes
    ensures Inv(Apply(net, Step(n), v), v)
  {
    var p := Advance(net.nodes[n]);
    AdvanceInv(net.nodes[n], n in net.pending, v);
    ReplacedNodes(net, Apply(net, Step(n), v), n, p, v);
    ReplacedEdges(net, Apply(net, Step(n), v), n, p);
  }

  // ---------- deliveries ----------

  /** A delivered checkpoint is the one at the cut, the value is the master's, and
      the reader has not passed it yet; data is elsewhere. */
  lemma NextIsAtCut<D>(net: Net<D>, v: string, n: string, k: nat)
    requires Inv(net, v) && CanDeliver(net, n, k)
    ensures Edge(net, n, k)
    ensures NextMessage(net, n, k).Checkpoint? <==> net.pos[(n, k)] == Cut(InputLog(net, n, k))
    ensures NextMessage(net, n, k).Checkpoint? ==> NextMessage(net, n, k) == Checkpoint(v)
  {
    var s := net.nodes[n].node.inputs[k];
    assert Edge(net, n, k);
    assert NodeInv(net.nodes[s], s in net.pending, v);
  }

  lemma CheckpointReaderRuns<D>(net: Net<D>, v: string, n: string, k: nat)
    requires Inv(net, v) && CanDeliver(net, n, k) && !Passed(net, n, k)
    ensures Running(net.nodes[n].node.state)
  {
    assert NodeInv(net.nodes[n], n in net.pending, v);
    assert Edge(net, n, k);
    if net.nodes[n].node.state == IDLE {
      IdleHasConsumed(net, v, n, k);
      assert false;
    }
  }

  /** Reading data passes no edge: not the one it is read from, and no other. */
  lemma ReadDataEdge<D>(net: Net<D>, net': Net<D>, v: string, n: string, k: nat, m: string, j: nat)
    requires Inv(net, v) && CanDeliver(net, n, k) && !NextMessage(net, n, k).Checkpoint? && Edge(net, m, j)
    requires net'.nodes == net.nodes && net'.pos == Read(net, n, k) && Wired(net') && SameWiring(net, net')
    ensures SamePassed(net, net', m, j)
  {
    assert Edge(net', m, j);
    if (m, j) == (n, k) {
      NextIsAtCut(net, v, n, k);
      assert InputLog(net', n, k) == InputLog(net, n, k);
    } else {
      EdgeStays(net, net', m, j);
    }
  }

  lemma ReadData<D>(net: Net<D>, net': Net<D>, v: string, n: string, k: nat)
    requires Inv(net, v) && CanDeliver(net, n, k) && !NextMessage(net, n, k).Checkpoint?
    requires net'.nodes == net.nodes && net'.pos == Read(net, n, k)
    ensures Wired(net') && EdgeInv(net')
  {
    SameNodesWiring(net, net');
    SameWired(net, net');
    forall m, j | Edge(net, m, j) ensures SamePassed(net, net', m, j) {
      ReadDataEdge(net, net', v, n, k, m, j);
    }
    SameEdges(net, net');
  }

  lemma SameNodesWiring<D>(net: Net<D>, net': Net<D>)
    requires net'.nodes == net.nodes && net'.pos.Keys == net.pos.Keys
    ensures SameWiring(net, net')
  {
  }

  lemma DataEdges<D>(net: Net<D>, net': Net<D>, v: string, n: string, k: nat, p: Process<D>)
    requires Inv(net, v) && CanDeliver(net, n, k) && !NextMessage(net, n, k).Checkpoint?
    requires Extends(net.nodes[n], p) && p.node.inputsCheckpoint == net.nodes[n].node.inputsCheckpoint
    requires net'.nodes == net.nodes[n := p] && net'.pos == Read(net, n, k)
    ensures Wired(net') && EdgeInv(net')
  {
    var read := net.(pos := Read(net, n, k));
    ReadData(net, read, v, n, k);
    ReplacedEdges(read, net', n, p);
  }

  lemma DeliverResult<D>(net: Net<D>, v: string, n: string, k: nat, out: seq<Message<D>>)
    requires CanDeliver(net, n, k) && IsData(out)
    ensures var (p, r) := Receive(net.nodes[n], net.nodes[n].node.inputs[k], NextMessage(net, n, k), out);
            Apply(net, Deliver(n, k, out), v) ==
            Net(net.nodes[n := p], Read(net, n, k), net.pending, if r.Raised? then net.raised + 1 else net.raised)
  {
  }

  lemma DataKeepsInv<D>(net: Net<D>, v: string, n: string, k: nat, out: seq<Message<D>>)
    requires Inv(net, v) && CanDeliver(net, n, k) && !NextMessage(net, n, k).Checkpoint? && IsData(out)
    ensures Inv(Apply(net, Deliver(n, k, out), v), v)
  {
    var (source, m) := (net.nodes[n].node.inputs[k], NextMessage(net, n, k));
    var p := Receive(net.nodes[n], source, m, out).0;
    var net' := Apply(net, Deliver(n, k, out), v);
    DeliverResult(net, v, n, k, out);
    DataInv(net.nodes[n], n in net.pending, v, source, m, out);
    ReplacedNodes(net, net', n, p, v);
    DataEdges(net, net', v, n, k, p);
  }

  /** net' is net after input k of n was read past its checkpoint. */
  ghost predicate PassesOnly<D>(net: Net<D>, net': Net<D>, n: string, k: nat)
    requires Wired(net) && Wired(net')
  {
    && Edge(net', n, k) && Passed(net', n, k)
    && net'.pos[(n, k)] <= |InputLog(net', n, k)|
    && forall m, j :: Edge(net, m, j) && (m, j) != (n, k) ==> SamePassed(net, net', m, j)
  }

  lemma CheckpointRead<D>(net: Net<D>, net': Net<D>, v: string, n: string, k: nat, p: Process<D>)
    requires Inv(net, v) && CanDeliver(net, n, k) && NextMessage(net, n, k).Checkpoint?
    requires Extends(net.nodes[n], p)
    requires net'.nodes == net.nodes[n := p] && net'.pos == Read(net, n, k)
    ensures SameWiring(net, net') && Wired(net') && PassesOnly(net, net', n, k)
  {
    NextIsAtCut(net, v, n, k);
    ReplacedWiring(net, net', n, p);
    SameWired(net, net');
    forall m, j | Edge(net, m, j) && (m, j) != (n, k) ensures SamePassed(net, net', m, j) {
      EdgeStays(net, net', m, j);
      assert Extends(net.nodes[m], net'.nodes[m]);
    }
    var s := net.nodes[n].node.inputs[k];
    assert Extends(net.nodes[s], net'.nodes[s]);
    CutStays(net.nodes[s].node.log, net'.nodes[s].node.log, net.pos[(n, k)]);
  }

  lemma OnePassed<D>(net: Net<D>, net': Net<D>, n: string, k: nat, p: Process<D>, v: string)
    requires Wired(net) && EdgeInv(net) && SameWiring(net, net') && Wired(net') && PassesOnly(net, net', n, k)
    requires n in net.nodes && net'.nodes == net.nodes[n := p]
    requires p.node.inputs == net.nodes[n].node.inputs && k < |p.node.inputs|
    requires p.node.inputsCheckpoint == net.nodes[n].node.inputsCheckpoint[p.node.inputs[k] := v]
    ensures EdgeInv(net')
  {
    SameWired(net, net');
    forall m, s | m in net'.nodes
      ensures s in net'.nodes[m].node.inputsCheckpoint <==> PassedFrom(net', m, s)
    {
      PassedFromAfter(net, net', n, k, m, s);
    }
    forall m, j | Edge(net', m, j) ensures net'.pos[(m, j)] <= |InputLog(net', m, j)| {
      assert Edge(net, m, j);
      assert (m, j) != (n, k) ==> SamePassed(net, net', m, j);
    }
  }

  lemma PassedFromAfter<D>(net: Net<D>, net': Net<D>, n: string, k: nat, m: string, s: string)
    requires Wired(net) && Wired(net') && SameWiring(net, net') && m in net.nodes
    requires n in net.nodes && PassesOnly(net, net', n, k)
    ensures PassedFrom(net', m, s) <==> PassedFrom(net, m, s) || (m == n && s == net'.nodes[n].node.inputs[k])
  {
    SameWired(net, net');
    assert Extends(net.nodes[m], net'.nodes[m]);
    if PassedFrom(net', m, s) {
      var j :| Edge(net', m, j) && net'.nodes[m].node.inputs[j] == s && Passed(net', m, j);
      assert (m, j) != (n, k) ==> SamePassed(net, net', m, j);
    }
    if PassedFrom(net, m, s) {
      var j :| Edge(net, m, j) && net.nodes[m].node.inputs[j] == s && Passed(net, m, j);
      assert (m, j) != (n, k) ==> SamePassed(net, net', m, j);
      assert Passed(net', m, j);
    }
  }

  /** Handling a checkpoint never raises. */
  lemma CheckpointKeepsInv<D>(net: Net<D>, v: string, n: string, k: nat, out: seq<Message<D>>)
    requires Inv(net, v) && CanDeliver(net, n, k) && NextMessage(net, n, k).Checkpoint? && IsData(out)
    ensures Inv(Apply(net, Deliver(n, k, out), v), v)
    ensures Apply(net, Deliver(n, k, out), v).raised == net.raised
  {
    var net' := Apply(net, Deliver(n, k, out), v);
    NextIsAtCut(net, v, n, k);
    CheckpointReaderRuns(net, v, n, k);
    var source := net.nodes[n].node.inputs[k];
    CheckpointInv(net.nodes[n], n in net.pending, v, source);
    var p := BeginCheckpoint(net.nodes[n], source, v).0;
    DeliverResult(net, v, n, k, out);
    ReplacedNodes(net, net', n, p, v);
    CheckpointRead(net, net', v, n, k, p);
    OnePassed(net, net', n, k, p, v);
  }

  lemma ApplyKeepsInv<D>(net: Net<D>, a: Action<D>, v: string)
    requires Inv(net, v)
    ensures Inv(Apply(net, a, v), v)
  {
    match a {
      case Command(n) => if n in net.nodes && n in net.pending { CommandKeepsInv(net, v, n); }
      case Emit(n, out) => if n in net.nodes && IsData(out) { EmitKeepsInv(net, v, n, out); }
      case Step(n) => if n in net.nodes { StepKeepsInv(net, v, n); }
      case Deliver(n, k, out) =>
        if CanDeliver(net, n, k) && IsData(out) {
          if NextMessage(net, n, k).Checkpoint? { CheckpointKeepsInv(net, v, n, k, out); }
          else { DataKeepsInv(net, v, n, k, out); }
        }
    }
  }

  lemma {:induction false} RunKeepsInv<D>(net: Net<D>, actions: seq<Action<D>>, v: string)
    requires Inv(net, v)
    ensures Inv(Run(net, actions, v), v)
    decreases |actions|
  {
    if actions != [] {
      ApplyKeepsInv(net, actions[0], v);
      RunKeepsInv(Apply(net, actions[0], v), actions[1..], v);
    }
  }
}
