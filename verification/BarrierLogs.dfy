/** What the nodes of a barrier publish: a log holds a node's own messages, its reactions
    to the messages it accepts, and its checkpoint once; nothing else, and nothing is dropped. */
module BarrierLogs {
  import opened Options
  import opened Nodes
  import opened Handlers
  import opened Graphs
  import opened Barrier
  import opened BarrierTheorems
  import opened BarrierLosses

  /** The next message of input k is an update or withdraw, and n acts on it. */
  predicate Accepts<D>(net: Net<D>, n: string, k: nat) {
    && CanDeliver(net, n, k) && !NextMessage(net, n, k).Checkpoint?
    && (net.nodes[n].node.state == STARTED || net.nodes[n].node.state == CHECKPOINT)
    && net.nodes[n].node.inputs[k] !in net.nodes[n].node.inputsCheckpoint
  }

  /** What the acting node has to say in a step. */
  function Words<D>(net: Net<D>, a: Action<D>): seq<Message<D>> {
    if a.n !in net.nodes then [] else
    match a
    case Command(_) => []
    case Emit(_, out) => if IsData(out) then out else []
    case Step(n) => if net.nodes[n].phase.Announcing? then [Checkpoint(net.nodes[n].phase.value)] else []
    case Deliver(n, k, out) => if IsData(out) && Accepts(net, n, k) then out else []
  }

  /** What n says in a run, in order. */
  function Said<D>(net: Net<D>, v: string, actions: seq<Action<D>>, n: string): seq<Message<D>>
    decreases |actions|
  {
    if actions == [] then [] else
    (if actions[0].n == n then Words(net, actions[0]) else []) + Said(Apply(net, actions[0], v), v, actions[1..], n)
  }

  lemma ReceivedWords<D>(p: Process<D>, source: string, m: Message<D>, out: seq<Message<D>>)
    ensures var heard := !m.Checkpoint? && (p.node.state == STARTED || p.node.state == CHECKPOINT) &&
              source !in p.node.inputsCheckpoint;
            Receive(p, source, m, out).0.node.log ==
            p.node.log + (if heard && p.node.hasOutput then out else [])
  {
    if m.Checkpoint? {
      assert BeginCheckpoint(p, source, m.value).0.node.log == p.node.log;
    }
  }

  lemma StepWords<D>(net: Net<D>, a: Action<D>, v: string, n: string)
    requires n in net.nodes
    ensures n in Apply(net, a, v).nodes
    ensures Apply(net, a, v).nodes[n].node.hasOutput == net.nodes[n].node.hasOutput
    ensures Apply(net, a, v).nodes[n].node.log ==
            net.nodes[n].node.log + if a.n == n && net.nodes[n].node.hasOutput then Words(net, a) else []
  {
    StepIsLater(net, a, v);
    assert Extends(net.nodes[n], Apply(net, a, v).nodes[n]);
    if a.n != n {
      OthersStay(net, a, v, n);
    } else if a.Deliver? && CanDeliver(net, n, a.k) && IsData(a.out) {
      DeliverResult(net, v, n, a.k, a.out);
      ReceivedWords(net.nodes[n], net.nodes[n].node.inputs[a.k], NextMessage(net, n, a.k), a.out);
    }
  }

  /** Over any run a log grows by exactly what its node has to say: its own messages, its
      reactions to what it accepts, its checkpoint. Without an output it stays as it is. */
  lemma {:induction false} LogIsSaid<D>(net: Net<D>, v: string, actions: seq<Action<D>>, n: string)
    requires n in net.nodes
    ensures n in Run(net, actions, v).nodes
    ensures Run(net, actions, v).nodes[n].node.log ==
            net.nodes[n].node.log + if net.nodes[n].node.hasOutput then Said(net, v, actions, n) else []
    decreases |actions|
  {
    if actions != [] {
      StepWords(net, actions[0], v, n);
      LogIsSaid(Apply(net, actions[0], v), v, actions[1..], n);
    }
  }

  /** An update or withdraw delivered to a running node, from an input whose checkpoint it
      has not read on any subscription, is answered: the reaction goes to its log. */
  lemma ReactionIsPublished<D>(net: Net<D>, v: string, n: string, k: nat, out: seq<Message<D>>)
    requires Inv(net, v) && CanDeliver(net, n, k) && !NextMessage(net, n, k).Checkpoint? && IsData(out)
    requires net.nodes[n].node.state != IDLE && !PassedFrom(net, n, net.nodes[n].node.inputs[k])
    ensures var t := Apply(net, Deliver(n, k, out), v);
            && n in t.nodes && t.raised == net.raised
            && t.nodes[n] == if net.nodes[n].node.hasOutput
                             then net.nodes[n].(node := net.nodes[n].node.(log := net.nodes[n].node.log + out))
                             else net.nodes[n]
  {
    assert NodeInv(net.nodes[n], n in net.pending, v);
    DeliverResult(net, v, n, k, out);
  }

  /** The announced checkpoint is in what a node has said, once and with the master's value. */
  lemma CheckpointOnce<D>(net: Net<D>, v: string, actions: seq<Action<D>>, n: string)
    requires Started(net) && n in net.nodes && net.nodes[n].node.hasOutput
    ensures n in Run(net, actions, v).nodes
    ensures var said := Said(net, v, actions, n);
            if Announced(Run(net, actions, v).nodes[n])
            then exists c :: 0 <= c < |said| && said[c] == Checkpoint(v) && IsData(said[..c] + said[c + 1..])
            else IsData(said)
  {
    StartedInv(net, v);
    RunKeepsInv(net, actions, v);
    RunIsLater(net, actions, v);
    LogIsSaid(net, v, actions, n);
    var t := Run(net, actions, v);
    assert Extends(net.nodes[n], t.nodes[n]);
    assert NodeInv(t.nodes[n], n in t.pending, v);
    OneCheckpoint(net.nodes[n].node.log, Said(net, v, actions, n), t.nodes[n], v);
  }

  lemma OneCheckpoint<D>(before: seq<Message<D>>, said: seq<Message<D>>, p: Process<D>, v: string)
    requires IsData(before) && p.node.log == before + said && LogInv(p, v) && p.node.hasOutput
    ensures if Announced(p)
            then exists c :: 0 <= c < |said| && said[c] == Checkpoint(v) && IsData(said[..c] + said[c + 1..])
            else IsData(said)
  {
    var log := p.node.log;
    assert forall j :: 0 <= j < |said| ==> said[j] == log[|before| + j];
    if Announced(p) {
      var c := Cut(log) - |before|;
      assert said[c] == Checkpoint(v) && IsData(said[..c] + said[c + 1..]);
    }
  }

  // ---------- what is handed to a node ----------

  /** What subscription k hands to n in a run, in order. */
  function Handed<D>(net: Net<D>, v: string, actions: seq<Action<D>>, n: string, k: nat): seq<Message<D>>
    decreases |actions|
  {
    if actions == [] then [] else
    (if actions[0].Deliver? && actions[0].n == n && actions[0].k == k && CanDeliver(net, n, k) && IsData(actions[0].out)
     then [NextMessage(net, n, k)] else [])
    + Handed(Apply(net, actions[0], v), v, actions[1..], n, k)
  }

  ghost predicate InReach<D>(net: Net<D>, n: string, k: nat) {
    Wired(net) && Edge(net, n, k) && net.pos[(n, k)] <= |InputLog(net, n, k)|
  }

  lemma StepHands<D>(net: Net<D>, a: Action<D>, v: string, n: string, k: nat)
    requires InReach(net, n, k)
    ensures var t := Apply(net, a, v);
            && InReach(t, n, k) && InputLog(net, n, k) <= InputLog(t, n, k)
            && t.pos[(n, k)] == net.pos[(n, k)] + |Handed(net, v, [a], n, k)|
            && InputLog(t, n, k)[net.pos[(n, k)]..t.pos[(n, k)]] == Handed(net, v, [a], n, k)
  {
    var t := Apply(net, a, v);
    StepIsLater(net, a, v);
    SameWired(net, t);
    var s := net.nodes[n].node.inputs[k];
    assert Extends(net.nodes[n], t.nodes[n]) && Extends(net.nodes[s], t.nodes[s]);
    assert Handed(net, v, [a], n, k) == if a.Deliver? && a.n == n && a.k == k && CanDeliver(net, n, k) && IsData(a.out)
                                        then [NextMessage(net, n, k)] else [];
  }

  lemma FirstHanded<D>(net: Net<D>, v: string, actions: seq<Action<D>>, n: string, k: nat)
    requires actions != []
    ensures Handed(net, v, actions, n, k) ==
            Handed(net, v, [actions[0]], n, k) + Handed(Apply(net, actions[0], v), v, actions[1..], n, k)
  {
  }

  /** Every subscription hands over its input's log, each message once and in order. */
  lemma {:induction false} HandedInOrder<D>(net: Net<D>, v: string, actions: seq<Action<D>>, n: string, k: nat)
    requires InReach(net, n, k)
    ensures var t := Run(net, actions, v);
            && InReach(t, n, k) && net.pos[(n, k)] <= t.pos[(n, k)]
            && InputLog(net, n, k) <= InputLog(t, n, k)
            && Handed(net, v, actions, n, k) == InputLog(t, n, k)[net.pos[(n, k)]..t.pos[(n, k)]]
    decreases |actions|
  {
    if actions != [] {
      var next, t := Apply(net, actions[0], v), Run(net, actions, v);
      StepHands(net, actions[0], v, n, k);
      HandedInOrder(next, v, actions[1..], n, k);
      FirstHanded(net, v, actions, n, k);
      Stretches(InputLog(next, n, k), InputLog(t, n, k), net.pos[(n, k)], next.pos[(n, k)], t.pos[(n, k)]);
    }
  }

  lemma Stretches<M>(log: seq<M>, log': seq<M>, a: nat, b: nat, c: nat)
    requires log <= log' && a <= b <= |log| && b <= c <= |log'|
    ensures log[a..b] + log'[b..c] == log'[a..c]
  {
  }

  // ---------- careful runs ----------

  /** What n would say if it acted on everything handed to it. */
  function Meant<D>(net: Net<D>, v: string, actions: seq<Action<D>>, n: string): seq<Message<D>>
    decreases |actions|
  {
    if actions == [] then [] else
    (if actions[0].n == n then Intent(net, actions[0]) else []) + Meant(Apply(net, actions[0], v), v, actions[1..], n)
  }

  function Intent<D>(net: Net<D>, a: Action<D>): seq<Message<D>> {
    if a.Deliver? then
      if IsData(a.out) && CanDeliver(net, a.n, a.k) && !NextMessage(net, a.n, a.k).Checkpoint? then a.out else []
    else Words(net, a)
  }

  lemma NothingLostIsAccepted<D>(net: Net<D>, a: Action<D>, v: string)
    requires SameLosses(net, Apply(net, a, v))
    ensures Intent(net, a) == Words(net, a)
  {
    if a.Deliver? && IsData(a.out) && CanDeliver(net, a.n, a.k) && !NextMessage(net, a.n, a.k).Checkpoint? {
      DeliverResult(net, v, a.n, a.k, a.out);
      var p := net.nodes[a.n];
      RefusalCounts(p, p.node.inputs[a.k], NextMessage(net, a.n, a.k), a.out);
    }
  }

  lemma RefusalCounts<D>(p: Process<D>, source: string, m: Message<D>, out: seq<Message<D>>)
    requires !m.Checkpoint?
    ensures var (p', r) := Receive(p, source, m, out);
            (r.Raised? || p'.node.wrongState > p.node.wrongState) <==>
            !(Running(p.node.state) && source !in p.node.inputsCheckpoint)
  {
  }

  /** In a careful run no reaction is dropped: a log is what its node meant to say. */
  lemma CarefulLog<D>(net: Net<D>, v: string, actions: seq<Action<D>>, n: string)
    requires Started(net) && Careful(net, actions, v) && n in net.nodes && net.nodes[n].node.hasOutput
    ensures n in Run(net, actions, v).nodes
    ensures Run(net, actions, v).nodes[n].node.log == net.nodes[n].node.log + Meant(net, v, actions, n)
  {
    StartedHasNoLate(net, v);
    CarefulMeaning(net, v, actions, n);
    LogIsSaid(net, v, actions, n);
  }

  lemma {:induction false} CarefulMeaning<D>(net: Net<D>, v: string, actions: seq<Action<D>>, n: string)
    requires Inv(net, v) && NoLate(net) && NoClash(net) && Careful(net, actions, v)
    ensures Meant(net, v, actions, n) == Said(net, v, actions, n)
    decreases |actions|
  {
    if actions != [] {
      StepKeepsNoLate(net, actions[0], v);
      StepKeepsNoClash(net, actions[0], v);
      LosesNothing(net, actions[0], v);
      NothingLostIsAccepted(net, actions[0], v);
      CarefulMeaning(Apply(net, actions[0], v), v, actions[1..], n);
    }
  }

  // ---------- mixed values ----------

  /** What inputs have sent is one value, and that of the checkpoint a node went IDLE with. */
  ghost predicate OneValue<D>(n: Node<D>) {
    && (forall s, r :: s in n.inputsCheckpoint && r in n.inputsCheckpoint ==>
          n.inputsCheckpoint[s] == n.inputsCheckpoint[r])
    && (n.state == IDLE ==> forall s :: s in n.inputsCheckpoint ==> Some(n.inputsCheckpoint[s]) == n.lastCheckpoint)
  }

  /** A node refuses a checkpoint, and is not changed by it, exactly when it does not run or has
      noted another value. */
  lemma MixedIsRefused<D>(n: Node<D>, source: string, value: string)
    ensures var (m, r) := OnCheckpoint(n, source, value);
            && (r == Raised ==> m == n)
            && (r == Handled <==>
                  && (n.state == STARTED || n.state == CHECKPOINT)
                  && forall s :: s in n.inputsCheckpoint ==> n.inputsCheckpoint[s] == value)
  {
  }

  /** A checkpoint that is taken is noted; the node is IDLE exactly when it has noted as many inputs
      as it lists, and keeps all else until then. Between its first and its last checkpoint
      it cannot be stopped. */
  lemma TakenIsNoted<D>(n: Node<D>, source: string, value: string)
    requires OnCheckpoint(n, source, value).1 == Handled
    ensures var m := OnCheckpoint(n, source, value).0;
            && m.inputsCheckpoint == n.inputsCheckpoint[source := value]
            && (m.state == IDLE <==> |n.inputsCheckpoint.Keys + {source}| == |n.inputs|)
            && (m.state != IDLE ==> m == n.(inputsCheckpoint := m.inputsCheckpoint, state := CHECKPOINT))
            && (Stop(m).1 == Handled <==> m.state == IDLE)
  {
    var noted := n.inputsCheckpoint[source := value];
    assert noted.Keys == n.inputsCheckpoint.Keys + {source};
    assert |noted| == |noted.Keys|;
  }

  /** Whatever inputs send, a node never goes IDLE on mixed values. */
  lemma NeverIdleOnMixed<D>(n: Node<D>, source: string, value: string)
    requires OneValue(n)
    ensures OneValue(OnCheckpoint(n, source, value).0)
  {
    MixedIsRefused(n, source, value);
  }
}
