/** Which messages of a barrier get lost: those behind a checkpoint, and those of an input
    listed twice that are overtaken by the checkpoint on the other subscription. */
module BarrierLosses {
  import opened Options
  import opened Nodes
  import opened Handlers
  import opened Graphs
  import opened Barrier
  import opened BarrierTheorems

  // ---------- late messages ----------

  /** The next message of input k stands behind the input's checkpoint. */
  ghost predicate Late<D>(net: Net<D>, n: string, k: nat) {
    Wired(net) && CanDeliver(net, n, k) && Edge(net, n, k) && Passed(net, n, k)
  }

  /** The net once n has lost the next message of its input k: it has raised if it
      runs, or counted a wrong state, and has done nothing else. */
  function Lose<D>(net: Net<D>, n: string, k: nat): Net<D>
    requires n in net.nodes && (n, k) in net.pos
  {
    if Running(net.nodes[n].node.state)
    then net.(pos := Read(net, n, k), raised := net.raised + 1)
    else net.(pos := Read(net, n, k), nodes := net.nodes[n := Discard(net.nodes[n])])
  }

  /** A late message is lost on every subscriber. */
  lemma LateIsLost<D>(net: Net<D>, v: string, n: string, k: nat, out: seq<Message<D>>)
    requires Inv(net, v) && Late(net, n, k) && IsData(out)
    ensures Apply(net, Deliver(n, k, out), v) == Lose(net, n, k)
  {
    NextIsAtCut(net, v, n, k);
    PassedIsNoted(net, n, k);
    NotedIsLost(net, v, n, k, out);
  }

  lemma NotedIsLost<D>(net: Net<D>, v: string, n: string, k: nat, out: seq<Message<D>>)
    requires CanDeliver(net, n, k) && IsData(out) && !NextMessage(net, n, k).Checkpoint?
    requires net.nodes[n].node.inputs[k] in net.nodes[n].node.inputsCheckpoint
    ensures Apply(net, Deliver(n, k, out), v) == Lose(net, n, k)
  {
    DeliverResult(net, v, n, k, out);
    LateReceived(net.nodes[n], net.nodes[n].node.inputs[k], NextMessage(net, n, k), out);
    assert net.nodes[n := net.nodes[n]] == net.nodes;
  }

  lemma LateReceived<D>(p: Process<D>, source: string, m: Message<D>, out: seq<Message<D>>)
    requires !m.Checkpoint? && source in p.node.inputsCheckpoint
    ensures Receive(p, source, m, out) ==
            if Running(p.node.state) then (p, Raised) else (Discard(p), Handled)
  {
  }

  /** n lists the source of its input k again, as input j. */
  ghost predicate Twin<D>(net: Net<D>, n: string, j: int, k: int) {
    Edge(net, n, j) && Edge(net, n, k) && j != k && net.nodes[n].node.inputs[j] == net.nodes[n].node.inputs[k]
  }

  /** Where an input is listed twice, neither subscription is behind once the input has
      announced its checkpoint. */
  ghost predicate NoClash<D>(net: Net<D>)
    requires Wired(net)
  {
    forall n, j, k :: Twin(net, n, j, k) ==> NoClashAt(net, n, k)
  }

  ghost predicate NoClashAt<D>(net: Net<D>, n: string, k: int)
    requires Wired(net) && Edge(net, n, k)
  {
    Cut(InputLog(net, n, k)) < |InputLog(net, n, k)| ==> net.pos[(n, k)] >= Cut(InputLog(net, n, k))
  }

  lemma DistinctHasNoClash<D>(net: Net<D>)
    requires Wired(net) && AllDistinct(net)
    ensures NoClash(net) && forall n, j, k :: !Twin(net, n, j, k)
  {
  }

  /** Any message before the checkpoint is handled, if no two subscriptions clash. */
  lemma OnTimeIsHandled<D>(net: Net<D>, v: string, n: string, k: nat, out: seq<Message<D>>)
    requires Inv(net, v) && CanDeliver(net, n, k) && IsData(out) && NoClash(net) && !Late(net, n, k)
    ensures SameLosses(net, Apply(net, Deliver(n, k, out), v))
  {
    NextIsAtCut(net, v, n, k);
    CheckpointReaderRuns(net, v, n, k);
    var s := net.nodes[n].node.inputs[k];
    DeliverResult(net, v, n, k, out);
    if NextMessage(net, n, k).Checkpoint? {
      CheckpointKeepsInv(net, v, n, k, out);
      CheckpointCountsNothing(net.nodes[n], s, v);
    } else {
      if s in net.nodes[n].node.inputsCheckpoint {
        NotedIsReached(net, n, k);
      }
      DataCountsNothing(net.nodes[n], s, NextMessage(net, n, k), out);
    }
  }

  lemma NotedIsReached<D>(net: Net<D>, n: string, k: nat)
    requires Wired(net) && EdgeInv(net) && Edge(net, n, k) && NoClash(net)
    requires net.nodes[n].node.inputs[k] in net.nodes[n].node.inputsCheckpoint
    ensures net.pos[(n, k)] >= Cut(InputLog(net, n, k))
  {
    var s := net.nodes[n].node.inputs[k];
    assert PassedFrom(net, n, s);
    var j :| Edge(net, n, j) && net.nodes[n].node.inputs[j] == s && Passed(net, n, j);
    if j != k {
      assert Twin(net, n, j, k);
    }
  }

  lemma CheckpointCountsNothing<D>(p: Process<D>, source: string, value: string)
    ensures BeginCheckpoint(p, source, value).0.node.wrongState == p.node.wrongState
  {
  }

  lemma DataCountsNothing<D>(p: Process<D>, source: string, m: Message<D>, out: seq<Message<D>>)
    requires Running(p.node.state) && source !in p.node.inputsCheckpoint && !m.Checkpoint?
    ensures Receive(p, source, m, out).1 == Handled && Receive(p, source, m, out).0.node.wrongState == p.node.wrongState
  {
  }

  /** No assertion has fired and no message was discarded in between. */
  ghost predicate SameLosses<D>(net: Net<D>, net': Net<D>) {
    && net'.raised == net.raised && net'.nodes.Keys == net.nodes.Keys
    && forall n :: n in net.nodes ==> net'.nodes[n].node.wrongState == net.nodes[n].node.wrongState
  }

  // ---------- the condition under which nothing is lost ----------

  ghost predicate HasReader<D>(net: Net<D>, n: string) {
    exists m, k :: Edge(net, m, k) && net.nodes[m].node.inputs[k] == n
  }

  /** A node with subscribers publishes data behind its own checkpoint. */
  ghost predicate Loud<D>(net: Net<D>, a: Action<D>) {
    && a.Emit? && a.n in net.nodes && IsData(a.out) && a.out != []
    && net.nodes[a.n].node.hasOutput && Cut(net.nodes[a.n].node.log) < |net.nodes[a.n].node.log|
    && HasReader(net, a.n)
  }

  /** A node announces its checkpoint while a subscriber that lists it twice has one
      subscription behind. */
  ghost predicate Hasty<D>(net: Net<D>, a: Action<D>) {
    && a.Step? && a.n in net.nodes && net.nodes[a.n].phase.Announcing? && net.nodes[a.n].node.hasOutput
    && exists n, j, k :: Twin(net, n, j, k) && Behind(net, n, k, a.n)
  }

  ghost predicate Behind<D>(net: Net<D>, n: string, k: int, source: string)
    requires Edge(net, n, k) && source in net.nodes
  {
    && net.nodes[n].node.inputs[k] == source && (n, k) in net.pos
    && net.pos[(n, k)] < |net.nodes[source].node.log|
  }

  ghost predicate Careful<D>(net: Net<D>, actions: seq<Action<D>>, v: string)
    decreases |actions|
  {
    actions != [] ==>
      !Loud(net, actions[0]) && !Hasty(net, actions[0]) && Careful(Apply(net, actions[0], v), actions[1..], v)
  }

  ghost predicate Silent<D>(net: Net<D>, actions: seq<Action<D>>, v: string)
    decreases |actions|
  {
    actions != [] ==> !Loud(net, actions[0]) && Silent(Apply(net, actions[0], v), actions[1..], v)
  }

  ghost predicate NothingBehind<D>(log: seq<Message<D>>) { |log| <= Cut(log) + 1 }

  /** No log that is read goes on behind its checkpoint. */
  ghost predicate NoLate<D>(net: Net<D>)
    requires Wired(net)
  {
    forall n, k :: Edge(net, n, k) ==> NothingBehind(InputLog(net, n, k))
  }

  lemma NoLateIsOnTime<D>(net: Net<D>, n: string, k: nat)
    requires Wired(net) && NoLate(net) && CanDeliver(net, n, k)
    ensures !Late(net, n, k)
  {
    assert Edge(net, n, k);
    assert NothingBehind(InputLog(net, n, k));
  }

  /** A step that is not loud leaves nothing behind a checkpoint in a log that is read. */
  lemma QuietLog<D>(net: Net<D>, a: Action<D>, v: string, n: string)
    requires NodesInv(net, v) && n in net.nodes && HasReader(net, n) && !Loud(net, a)
    requires NothingBehind(net.nodes[n].node.log)
    ensures NothingBehind(Apply(net, a, v).nodes[n].node.log)
  {
    if a.n == n {
      var p := net.nodes[n];
      assert LogInv(p, v) by {
        assert NodeInv(p, n in net.pending, v);
      }
      match a {
        case Emit(_, out) => if IsData(out) { EmittedQuietly(p, out, v); }
        case Step(_) => AdvancedQuietly(p, v);
        case Command(_) =>
        case Deliver(_, k, out) =>
          if CanDeliver(net, n, k) && IsData(out) {
            DeliverResult(net, v, n, k, out);
            ReceivedQuietly(p, p.node.inputs[k], NextMessage(net, n, k), out, v);
          }
      }
    } else {
      OthersStay(net, a, v, n);
    }
  }

  lemma EmittedQuietly<D>(p: Process<D>, out: seq<Message<D>>, v: string)
    requires LogInv(p, v) && IsData(out) && NothingBehind(p.node.log)
    requires out == [] || !p.node.hasOutput || Cut(p.node.log) == |p.node.log|
    ensures NothingBehind(Emitted(p, out).node.log)
  {
    assert p.node.log + [] == p.node.log;
    if p.node.hasOutput && Cut(p.node.log) == |p.node.log| {
      CutIs(p.node.log + out, |p.node.log + out|);
    }
  }

  lemma AdvancedQuietly<D>(p: Process<D>, v: string)
    requires LogInv(p, v) && NothingBehind(p.node.log)
    ensures NothingBehind(Advance(p).node.log)
  {
    if p.phase.Announcing? {
      CutIs(p.node.log + [Checkpoint(p.phase.value)], |p.node.log|);
    }
  }

  lemma ReceivedQuietly<D>(p: Process<D>, source: string, m: Message<D>, out: seq<Message<D>>, v: string)
    requires LogInv(p, v) && IsData(out) && NothingBehind(p.node.log)
    ensures NothingBehind(Receive(p, source, m, out).0.node.log)
  {
    if Running(p.node.state) {
      CutIs(p.node.log + out, |p.node.log + out|);
    }
  }

  lemma StepKeepsNoLate<D>(net: Net<D>, a: Action<D>, v: string)
    requires Inv(net, v) && NoLate(net) && !Loud(net, a)
    ensures Inv(Apply(net, a, v), v) && NoLate(Apply(net, a, v))
  {
    var net' := Apply(net, a, v);
    ApplyKeepsInv(net, a, v);
    StepIsLater(net, a, v);
    SameWired(net, net');
    forall n, k | Edge(net', n, k) ensures NothingBehind(InputLog(net', n, k)) {
      assert Edge(net, n, k) && Extends(net.nodes[n], net'.nodes[n]);
      assert NothingBehind(InputLog(net, n, k));
      QuietLog(net, a, v, net.nodes[n].node.inputs[k]);
    }
  }

  lemma StepKeepsNoClash<D>(net: Net<D>, a: Action<D>, v: string)
    requires Inv(net, v) && NoClash(net) && !Hasty(net, a)
    ensures Inv(Apply(net, a, v), v) && NoClash(Apply(net, a, v))
  {
    var net' := Apply(net, a, v);
    ApplyKeepsInv(net, a, v);
    StepIsLater(net, a, v);
    SameWired(net, net');
    forall n, j, k | Twin(net', n, j, k) ensures NoClashAt(net', n, k) {
      assert Edge(net, n, j) && Edge(net, n, k) && Extends(net.nodes[n], net'.nodes[n]);
      assert Twin(net, n, j, k);
      TwinStays(net, a, v, n, j, k);
    }
  }

  lemma TwinStays<D>(net: Net<D>, a: Action<D>, v: string, n: string, j: nat, k: nat)
    requires Inv(net, v) && NoClash(net) && !Hasty(net, a) && Twin(net, n, j, k)
    requires Wired(Apply(net, a, v)) && Later(net, Apply(net, a, v)) && Edge(Apply(net, a, v), n, k)
    ensures NoClashAt(Apply(net, a, v), n, k)
  {
    var net' := Apply(net, a, v);
    var s := net.nodes[n].node.inputs[k];
    assert NoClashAt(net, n, k);
    assert Extends(net.nodes[n], net'.nodes[n]) && Extends(net.nodes[s], net'.nodes[s]);
    CutStays(net.nodes[s].node.log, net'.nodes[s].node.log, 0);
    if Cut(net.nodes[s].node.log) == |net.nodes[s].node.log| {
      if Cut(net'.nodes[s].node.log) < |net'.nodes[s].node.log| {
        CutByAnnouncing(net, a, v, s);
        assert !Behind(net, n, k, s);
      }
    }
  }

  /** Only a node's announcement cuts its log, and at its end. */
  lemma CutByAnnouncing<D>(net: Net<D>, a: Action<D>, v: string, s: string)
    requires NodesInv(net, v) && s in net.nodes && s in Apply(net, a, v).nodes
    requires Cut(net.nodes[s].node.log) == |net.nodes[s].node.log|
    requires Cut(Apply(net, a, v).nodes[s].node.log) < |Apply(net, a, v).nodes[s].node.log|
    ensures a.Step? && a.n == s && net.nodes[s].phase.Announcing? && net.nodes[s].node.hasOutput
    ensures Cut(Apply(net, a, v).nodes[s].node.log) == |net.nodes[s].node.log|
  {
    var p := net.nodes[s];
    if a.n != s {
      OthersStay(net, a, v, s);
    } else {
      match a {
        case Emit(_, out) => DataIsNoCut(p.node.log, if p.node.hasOutput && IsData(out) then out else []);
        case Command(_) =>
        case Step(_) =>
          if p.phase.Announcing? && p.node.hasOutput {
            CutIs(p.node.log + [Checkpoint(p.phase.value)], |p.node.log|);
          }
        case Deliver(_, k, out) =>
          if CanDeliver(net, s, k) && IsData(out) {
            DeliverResult(net, v, s, k, out);
            ReceivedIsNoCut(p, p.node.inputs[k], NextMessage(net, s, k), out);
          }
      }
    }
  }

  lemma DataIsNoCut<D>(log: seq<Message<D>>, out: seq<Message<D>>)
    requires Cut(log) == |log| && IsData(out)
    ensures Cut(log + out) == |log + out|
    ensures log + [] == log
  {
    CutIs(log + out, |log + out|);
  }

  lemma ReceivedIsNoCut<D>(p: Process<D>, source: string, m: Message<D>, out: seq<Message<D>>)
    requires Cut(p.node.log) == |p.node.log| && IsData(out)
    ensures var log := Receive(p, source, m, out).0.node.log; Cut(log) == |log|
  {
    DataIsNoCut(p.node.log, out);
  }

  lemma LosesNothing<D>(net: Net<D>, a: Action<D>, v: string)
    requires Inv(net, v) && NoLate(net) && NoClash(net)
    ensures SameLosses(net, Apply(net, a, v))
  {
    if !a.Deliver? {
      OnlyDeliveriesLose(net, a, v);
    } else if CanDeliver(net, a.n, a.k) && IsData(a.out) {
      NoLateIsOnTime(net, a.n, a.k);
      OnTimeIsHandled(net, v, a.n, a.k, a.out);
    }
  }

  lemma OnlyDeliveriesLose<D>(net: Net<D>, a: Action<D>, v: string)
    requires !a.Deliver?
    ensures SameLosses(net, Apply(net, a, v))
  {
    if a.Step? && a.n in net.nodes {
      AdvanceExtends(net.nodes[a.n]);
    }
  }

  lemma {:induction false} CarefulRunLosesNothing<D>(net: Net<D>, v: string, actions: seq<Action<D>>)
    requires Inv(net, v) && NoLate(net) && NoClash(net) && Careful(net, actions, v)
    ensures var t := Run(net, actions, v); Inv(t, v) && NoLate(t) && NoClash(t) && SameLosses(net, t)
    decreases |actions|
  {
    if actions != [] {
      StepKeepsNoLate(net, actions[0], v);
      StepKeepsNoClash(net, actions[0], v);
      LosesNothing(net, actions[0], v);
      CarefulRunLosesNothing(Apply(net, actions[0], v), v, actions[1..]);
    }
  }

  lemma {:induction false} SilentRunHasNoLate<D>(net: Net<D>, v: string, actions: seq<Action<D>>)
    requires Inv(net, v) && NoLate(net) && Silent(net, actions, v)
    ensures Inv(Run(net, actions, v), v) && NoLate(Run(net, actions, v))
    decreases |actions|
  {
    if actions != [] {
      StepKeepsNoLate(net, actions[0], v);
      SilentRunHasNoLate(Apply(net, actions[0], v), v, actions[1..]);
    }
  }

  /** Without repeated inputs silence is all the care that is needed. */
  lemma {:induction false} SilentIsCareful<D>(net: Net<D>, v: string, actions: seq<Action<D>>)
    requires Wired(net) && AllDistinct(net) && Silent(net, actions, v)
    ensures Careful(net, actions, v)
    decreases |actions|
  {
    if actions != [] {
      var next := Apply(net, actions[0], v);
      DistinctHasNoClash(net);
      StepIsLater(net, actions[0], v);
      SameWired(net, next);
      LaterInputs(net, next);
      SilentIsCareful(next, v, actions[1..]);
    }
  }

  lemma StartedHasNoLate<D>(net: Net<D>, v: string)
    requires Started(net)
    ensures Inv(net, v) && NoLate(net) && NoClash(net) && Unspoilt(net)
  {
    StartedInv(net, v);
    forall n, k | Edge(net, n, k) ensures Cut(InputLog(net, n, k)) == |InputLog(net, n, k)| {
      CutIs(InputLog(net, n, k), |InputLog(net, n, k)|);
    }
  }

  /** In a careful run, on any graph, none of the assertions on updates, withdraws and
      checkpoint values ever fires, and no message is discarded. Without repeated
      inputs every silent run is careful. */
  lemma NoAssertionFires<D>(net: Net<D>, v: string, actions: seq<Action<D>>)
    requires Started(net)
    requires Careful(net, actions, v) || (AllDistinct(net) && Silent(net, actions, v))
    ensures Run(net, actions, v).raised == 0 && SameLosses(net, Run(net, actions, v))
  {
    StartedHasNoLate(net, v);
    if !Careful(net, actions, v) {
      SilentIsCareful(net, v, actions);
    }
    CarefulRunLosesNothing(net, v, actions);
  }

  /** The cut is final as well: with silent nodes, an IDLE node has consumed everything that its
      inputs have published or ever will. */
  lemma SilentCutIsFinal<D>(net: Net<D>, v: string, before: seq<Action<D>>, after: seq<Action<D>>, n: string, k: nat)
    requires Started(net) && Silent(net, before, v) && Silent(Run(net, before, v), after, v)
    requires Edge(Run(net, before, v), n, k) && Run(net, before, v).nodes[n].node.state == IDLE
    ensures var s := Run(net, before, v);
            var t := Run(s, after, v);
            && CutConsumed(s, t, v, n, k)
            && s.pos[(n, k)] == |InputLog(s, n, k)| && InputLog(t, n, k) == InputLog(s, n, k)
  {
    StartedHasNoLate(net, v);
    SilentRunHasNoLate(net, v, before);
    var s := Run(net, before, v);
    SilentRunHasNoLate(s, v, after);
    var t := Run(s, after, v);
    RunIsLater(s, after, v);
    SameWired(s, t);
    IdleConsumes(s, t, v, n, k);
    IdleHasConsumed(s, v, n, k);
    NothingMore(s, t, v, n, k);
  }

  lemma NothingMore<D>(s: Net<D>, t: Net<D>, v: string, n: string, k: nat)
    requires Wired(s) && Wired(t) && NoLate(s) && NoLate(t) && CutConsumed(s, t, v, n, k)
    requires s.pos[(n, k)] <= |InputLog(s, n, k)|
    ensures s.pos[(n, k)] == |InputLog(s, n, k)| && InputLog(t, n, k) == InputLog(s, n, k)
  {
    assert NothingBehind(InputLog(s, n, k)) && NothingBehind(InputLog(t, n, k));
  }

  // ---------- and only then ----------

  /** No subscriber has read anything behind a checkpoint. */
  ghost predicate Unspoilt<D>(net: Net<D>)
    requires Wired(net)
  {
    forall n, k :: Edge(net, n, k) ==> net.pos[(n, k)] <= Cut(InputLog(net, n, k)) + 1
  }

  lemma StepUnspoilt<D>(net: Net<D>, a: Action<D>, v: string)
    requires Inv(net, v) && Unspoilt(net) && SameLosses(net, Apply(net, a, v))
    ensures Inv(Apply(net, a, v), v) && Unspoilt(Apply(net, a, v))
  {
    var net' := Apply(net, a, v);
    ApplyKeepsInv(net, a, v);
    StepIsLater(net, a, v);
    SameWired(net, net');
    forall n, k | Edge(net', n, k) ensures net'.pos[(n, k)] <= Cut(InputLog(net', n, k)) + 1 {
      assert Edge(net, n, k);
      var s := net.nodes[n].node.inputs[k];
      assert Extends(net.nodes[n], net'.nodes[n]) && Extends(net.nodes[s], net'.nodes[s]);
      CutStays(net.nodes[s].node.log, net'.nodes[s].node.log, net.pos[(n, k)]);
      if a.Deliver? && a.n == n && a.k == k && Late(net, n, k) && IsData(a.out) {
        LateIsLost(net, v, n, k, a.out);
        assert false;
      }
    }
  }

  lemma LossesBetween<D>(a: Net<D>, b: Net<D>, c: Net<D>)
    requires Later(a, b) && Later(b, c) && SameLosses(a, c)
    ensures SameLosses(a, b) && SameLosses(b, c)
  {
  }

  lemma {:induction false} RunUnspoilt<D>(net: Net<D>, v: string, actions: seq<Action<D>>)
    requires Inv(net, v) && Unspoilt(net) && SameLosses(net, Run(net, actions, v))
    ensures Inv(Run(net, actions, v), v) && Unspoilt(Run(net, actions, v))
    decreases |actions|
  {
    if actions != [] {
      var next := Apply(net, actions[0], v);
      StepIsLater(net, actions[0], v);
      RunIsLater(next, actions[1..], v);
      LossesBetween(net, next, Run(net, actions, v));
      StepUnspoilt(net, actions[0], v);
      RunUnspoilt(next, v, actions[1..]);
    }
  }

  /** Some log that is read goes on behind its checkpoint. */
  ghost predicate HasLate<D>(net: Net<D>, n: string, k: nat)
    requires Wired(net)
  {
    Edge(net, n, k) && Cut(InputLog(net, n, k)) + 1 < |InputLog(net, n, k)|
  }

  lemma HasLateStays<D>(net: Net<D>, net': Net<D>, n: string, k: nat)
    requires Wired(net) && Later(net, net') && HasLate(net, n, k)
    ensures Wired(net') && HasLate(net', n, k)
  {
    SameWired(net, net');
    var s := net.nodes[n].node.inputs[k];
    assert Extends(net.nodes[n], net'.nodes[n]) && Extends(net.nodes[s], net'.nodes[s]);
    CutStays(net.nodes[s].node.log, net'.nodes[s].node.log, 0);
  }

  lemma LoudLeavesLate<D>(net: Net<D>, v: string, a: Action<D>) returns (n: string, k: nat)
    requires Wired(net) && Loud(net, a)
    ensures Wired(Apply(net, a, v)) && HasLate(Apply(net, a, v), n, k)
  {
    var j: int;
    n, j :| Edge(net, n, j) && net.nodes[n].node.inputs[j] == a.n;
    k := j;
    var net' := Apply(net, a, v);
    StepIsLater(net, a, v);
    SameWired(net, net');
    assert Extends(net.nodes[n], net'.nodes[n]);
    CutStays(net.nodes[a.n].node.log, net'.nodes[a.n].node.log, 0);
  }

  lemma {:induction false} LoudRunLeavesLate<D>(net: Net<D>, v: string, actions: seq<Action<D>>)
      returns (n: string, k: nat)
    requires Inv(net, v) && !Silent(net, actions, v)
    ensures Wired(Run(net, actions, v)) && HasLate(Run(net, actions, v), n, k)
    decreases |actions|
  {
    var next := Apply(net, actions[0], v);
    ApplyKeepsInv(net, actions[0], v);
    if Loud(net, actions[0]) {
      n, k := LoudLeavesLate(net, v, actions[0]);
      RunIsLater(next, actions[1..], v);
      HasLateStays(next, Run(net, actions, v), n, k);
    } else {
      n, k := LoudRunLeavesLate(next, v, actions[1..]);
    }
  }

  ghost predicate Deliveries<D>(actions: seq<Action<D>>) {
    forall a :: a in actions ==> a.Deliver?
  }

  /** One subscription is read on its own up to some place. */
  lemma {:induction false} DeliverUpTo<D>(net: Net<D>, v: string, n: string, k: nat, target: nat)
    returns (after: seq<Action<D>>)
    requires Wired(net) && Edge(net, n, k) && target <= |InputLog(net, n, k)|
    ensures Deliveries(after)
    ensures (n, k) in Run(net, after, v).pos && Run(net, after, v).pos[(n, k)] >= target
    ensures OnlyMoved(net, Run(net, after, v), n, k)
    decreases target - net.pos[(n, k)]
  {
    if net.pos[(n, k)] >= target {
      after := [];
    } else {
      var a: Action<D> := Deliver(n, k, []);
      var next := Apply(net, a, v);
      assert CanDeliver(net, n, k);
      StepIsLater(net, a, v);
      SameWired(net, next);
      var s := net.nodes[n].node.inputs[k];
      assert Extends(net.nodes[n], next.nodes[n]) && Extends(net.nodes[s], next.nodes[s]);
      var rest := DeliverUpTo(next, v, n, k, target);
      FirstStep(net, v, a, rest);
      after := [a] + rest;
    }
  }

  ghost predicate OnlyMoved<D>(net: Net<D>, net': Net<D>, n: string, k: nat) {
    net'.pos.Keys == net.pos.Keys && forall e :: e in net.pos && e != (n, k) ==> net'.pos[e] == net.pos[e]
  }

  lemma LateWillBeLost<D>(t: Net<D>, v: string, n: string, k: nat) returns (after: seq<Action<D>>)
    requires Inv(t, v) && Unspoilt(t) && HasLate(t, n, k)
    ensures Deliveries(after) && !SameLosses(t, Run(t, after, v))
  {
    after := DeliverUpTo(t, v, n, k, |InputLog(t, n, k)|);
    var u := Run(t, after, v);
    if SameLosses(t, u) {
      RunIsLater(t, after, v);
      RunUnspoilt(t, v, after);
      HasLateStays(t, u, n, k);
      var s := t.nodes[n].node.inputs[k];
      assert Extends(t.nodes[n], u.nodes[n]) && Extends(t.nodes[s], u.nodes[s]);
      CutStays(t.nodes[s].node.log, u.nodes[s].node.log, 0);
      assert false;
    }
  }

  /** One of two subscriptions to the same input is behind while the input has announced. */
  ghost predicate HasClash<D>(net: Net<D>, n: string, j: nat, k: nat)
    requires Wired(net)
  {
    Twin(net, n, j, k) && net.pos[(n, k)] < Cut(InputLog(net, n, k)) < |InputLog(net, n, k)|
  }

  /** Read the other subscription past the checkpoint, then this one: its message is lost. */
  lemma ClashWillBeLost<D>(t: Net<D>, v: string, n: string, j: nat, k: nat) returns (after: seq<Action<D>>)
    requires Inv(t, v) && HasClash(t, n, j, k)
    ensures Deliveries(after) && !SameLosses(t, Run(t, after, v))
  {
    var ahead := DeliverUpTo(t, v, n, j, Cut(InputLog(t, n, j)) + 1);
    var u := Run(t, ahead, v);
    RunKeepsInv(t, ahead, v);
    RunIsLater(t, ahead, v);
    SameWired(t, u);
    ClashStays(t, u, n, j, k);
    var last: Action<D> := Deliver(n, k, []);
    OvertakenIsLost(u, v, n, j, k);
    after := ahead + [last];
    RunConcat(t, ahead, [last], v);
    FirstStep(u, v, last, []);
    assert [last] + [] == [last];
    StepIsLater(u, last, v);
    if SameLosses(t, Apply(u, last, v)) {
      LossesBetween(t, u, Apply(u, last, v));
      assert false;
    }
  }

  lemma ClashStays<D>(t: Net<D>, u: Net<D>, n: string, j: nat, k: nat)
    requires Wired(t) && Wired(u) && Later(t, u) && HasClash(t, n, j, k) && OnlyMoved(t, u, n, j)
    requires Edge(u, n, j) && Edge(u, n, k)
    ensures HasClash(u, n, j, k) && Cut(InputLog(u, n, j)) == Cut(InputLog(t, n, j))
  {
    var s := t.nodes[n].node.inputs[k];
    assert Extends(t.nodes[n], u.nodes[n]) && Extends(t.nodes[s], u.nodes[s]);
    CutStays(t.nodes[s].node.log, u.nodes[s].node.log, 0);
  }

  lemma OvertakenIsLost<D>(u: Net<D>, v: string, n: string, j: nat, k: nat)
    requires Inv(u, v) && HasClash(u, n, j, k) && Passed(u, n, j)
    ensures !SameLosses(u, Apply(u, Deliver(n, k, []), v))
  {
    assert CanDeliver(u, n, k);
    NextIsAtCut(u, v, n, k);
    PassedIsNoted(u, n, j);
    NotedIsLost(u, v, n, k, []);
  }

  /** However the messages published so far are delivered, none is lost. */
  ghost predicate NothingGetsLost<D(!new)>(net: Net<D>, t: Net<D>, v: string) {
    forall after :: Deliveries(after) ==> SameLosses(net, Run(t, after, v))
  }

  lemma {:induction false} NoEmitIsSilent<D>(net: Net<D>, v: string, actions: seq<Action<D>>)
    requires forall a :: a in actions ==> !a.Emit?
    ensures Silent(net, actions, v)
    decreases |actions|
  {
    if actions != [] {
      NoEmitIsSilent(Apply(net, actions[0], v), v, actions[1..]);
    }
  }

  lemma {:induction false} DeliveriesAreCareful<D>(net: Net<D>, v: string, actions: seq<Action<D>>)
    requires Deliveries(actions)
    ensures Careful(net, actions, v)
    decreases |actions|
  {
    if actions != [] {
      DeliveriesAreCareful(Apply(net, actions[0], v), v, actions[1..]);
    }
  }

  lemma SafeStaysSafe<D(!new)>(net: Net<D>, t: Net<D>, v: string)
    requires Inv(t, v) && NoLate(t) && NoClash(t) && SameLosses(net, t)
    ensures NothingGetsLost(net, t, v)
  {
    forall after | Deliveries(after) ensures SameLosses(net, Run(t, after, v)) {
      DeliveriesAreCareful(t, v, after);
      CarefulRunLosesNothing(t, v, after);
    }
  }

  /** Without repeated inputs, a run loses no message, now or however the rest is delivered,
      if and only if in it no node with subscribers publishes behind its own checkpoint. */
  lemma NothingLostExactly<D(!new)>(net: Net<D>, v: string, actions: seq<Action<D>>)
    requires Started(net) && AllDistinct(net)
    ensures Silent(net, actions, v) <==> NothingGetsLost(net, Run(net, actions, v), v)
  {
    StartedHasNoLate(net, v);
    var t := Run(net, actions, v);
    if Silent(net, actions, v) {
      SilentIsCareful(net, v, actions);
      CarefulRunLosesNothing(net, v, actions);
      SafeStaysSafe(net, t, v);
    } else if NothingGetsLost(net, t, v) {
      RunKeepsInv(net, actions, v);
      var n, k := LoudRunLeavesLate(net, v, actions);
      assert Deliveries<D>([]) && Run(t, [], v) == t;
      RunUnspoilt(net, v, actions);
      var after := LateWillBeLost(t, v, n, k);
      assert false;
    }
  }

  // ---------- repeated inputs ----------

  lemma CarelessStep<D>(net: Net<D>, v: string, a: Action<D>) returns (after: seq<Action<D>>)
    requires Inv(net, v) && NoLate(net) && NoClash(net) && Unspoilt(net) && (Loud(net, a) || Hasty(net, a))
    ensures Deliveries(after) && !SameLosses(net, Run(Apply(net, a, v), after, v))
  {
    var t := Apply(net, a, v);
    LosesNothing(net, a, v);
    StepUnspoilt(net, a, v);
    if Loud(net, a) {
      var n, k := LoudLeavesLate(net, v, a);
      after := LateWillBeLost(t, v, n, k);
    } else {
      var n, j, k := HastyLeavesClash(net, v, a);
      after := ClashWillBeLost(t, v, n, j, k);
    }
  }

  lemma HastyLeavesClash<D>(net: Net<D>, v: string, a: Action<D>) returns (n: string, j: nat, k: nat)
    requires Inv(net, v) && Hasty(net, a)
    ensures Wired(Apply(net, a, v)) && HasClash(Apply(net, a, v), n, j, k)
  {
    var jj: int, kk: int;
    n, jj, kk :| Twin(net, n, jj, kk) && Behind(net, n, kk, a.n);
    j, k := jj, kk;
    StepResult(net, v, a.n);
    AnnouncingClashes(net, v, a.n, n, j, k);
  }

  lemma AnnouncingClashes<D>(net: Net<D>, v: string, s: string, n: string, j: nat, k: nat)
    requires Inv(net, v) && Twin(net, n, j, k) && s in net.nodes && Behind(net, n, k, s)
    requires net.nodes[s].phase.Announcing? && net.nodes[s].node.hasOutput
    ensures var net' := net.(nodes := net.nodes[s := Advance(net.nodes[s])]);
            Wired(net') && HasClash(net', n, j, k)
  {
    var net' := net.(nodes := net.nodes[s := Advance(net.nodes[s])]);
    AdvanceExtends(net.nodes[s]);
    ReplacedIsLater(net, net', s, Advance(net.nodes[s]));
    SameWired(net, net');
    assert LogInv(net.nodes[s], v) by {
      assert NodeInv(net.nodes[s], s in net.pending, v);
    }
    AnnouncedCut(net.nodes[s]);
    BehindIsClash(net, net', n, j, k);
  }

  lemma BehindIsClash<D>(net: Net<D>, net': Net<D>, n: string, j: nat, k: nat)
    requires Wired(net) && Wired(net') && Later(net, net') && net'.pos == net.pos && Twin(net, n, j, k)
    requires var s := net.nodes[n].node.inputs[k];
             && Behind(net, n, k, s) && s in net'.nodes
             && Cut(net'.nodes[s].node.log) == |net.nodes[s].node.log| < |net'.nodes[s].node.log|
    ensures HasClash(net', n, j, k)
  {
    TwinLater(net, net', n, j, k);
  }

  lemma AnnouncedCut<D>(p: Process<D>)
    requires p.phase.Announcing? && p.node.hasOutput && Cut(p.node.log) == |p.node.log|
    ensures var log := Advance(p).node.log; |log| == |p.node.log| + 1 && Cut(log) == |p.node.log|
  {
    CutIs(p.node.log + [Checkpoint(p.phase.value)], |p.node.log|);
  }

  /** Some moment of a careless run from which a message can get lost. */
  lemma {:induction false} CarelessMoment<D>(net: Net<D>, v: string, actions: seq<Action<D>>)
    returns (i: nat, after: seq<Action<D>>)
    requires Inv(net, v) && NoLate(net) && NoClash(net) && Unspoilt(net) && !Careful(net, actions, v)
    ensures i <= |actions| && Deliveries(after) && !SameLosses(net, Run(Run(net, actions[..i], v), after, v))
    decreases |actions|
  {
    if Loud(net, actions[0]) || Hasty(net, actions[0]) {
      i := 1;
      after := CarelessStep(net, v, actions[0]);
      PrefixRun(net, v, actions, 0);
    } else {
      var next := Apply(net, actions[0], v);
      CarefulStep(net, v, actions[0]);
      var m: nat;
      m, after := CarelessMoment(next, v, actions[1..]);
      i := m + 1;
      PrefixRun(net, v, actions, m);
      StillLost(net, next, Run(Run(net, actions[..i], v), after, v));
    }
  }

  lemma PrefixRun<D>(net: Net<D>, v: string, actions: seq<Action<D>>, m: nat)
    requires m < |actions|
    ensures Run(net, actions[..m + 1], v) == Run(Apply(net, actions[0], v), actions[1..][..m], v)
  {
    FirstStep(net, v, actions[0], actions[1..][..m]);
    assert actions[..m + 1] == [actions[0]] + actions[1..][..m];
  }

  lemma CarefulStep<D>(net: Net<D>, v: string, a: Action<D>)
    requires Inv(net, v) && NoLate(net) && NoClash(net) && Unspoilt(net) && !Loud(net, a) && !Hasty(net, a)
    ensures var t := Apply(net, a, v); Inv(t, v) && NoLate(t) && NoClash(t) && Unspoilt(t) && SameLosses(net, t)
  {
    StepKeepsNoLate(net, a, v);
    StepKeepsNoClash(net, a, v);
    LosesNothing(net, a, v);
    StepUnspoilt(net, a, v);
  }

  lemma StillLost<D>(net: Net<D>, next: Net<D>, t: Net<D>)
    requires SameLosses(net, next) && !SameLosses(next, t)
    ensures !SameLosses(net, t)
  {
  }

  lemma {:induction false} CarefulPrefix<D>(net: Net<D>, v: string, actions: seq<Action<D>>, i: nat)
    requires i <= |actions| && Careful(net, actions, v)
    ensures Careful(net, actions[..i], v)
    decreases |actions|
  {
    if i > 0 {
      CarefulPrefix(Apply(net, actions[0], v), v, actions[1..], i - 1);
      assert actions[..i][1..] == actions[1..][..i - 1];
    }
  }

  /** At no moment of the run can any way of delivering what is published lose a message. */
  ghost predicate NeverInDanger<D(!new)>(net: Net<D>, v: string, actions: seq<Action<D>>) {
    forall i :: 0 <= i <= |actions| ==> NothingGetsLost(net, Run(net, actions[..i], v), v)
  }

  /** On any graph, repeated inputs included: no message is in danger at any moment of a run,
      if and only if no node with subscribers publishes behind its own checkpoint, and
      none announces its checkpoint while a subscriber that lists it twice is behind
      with one of the two subscriptions. */
  lemma NeverInDangerExactly<D(!new)>(net: Net<D>, v: string, actions: seq<Action<D>>)
    requires Started(net)
    ensures Careful(net, actions, v) <==> NeverInDanger(net, v, actions)
  {
    StartedHasNoLate(net, v);
    if Careful(net, actions, v) {
      forall i | 0 <= i <= |actions| ensures NothingGetsLost(net, Run(net, actions[..i], v), v) {
        CarefulPrefix(net, v, actions, i);
        CarefulRunLosesNothing(net, v, actions[..i]);
        SafeStaysSafe(net, Run(net, actions[..i], v), v);
      }
    } else {
      var i, after := CarelessMoment(net, v, actions);
      assert !NothingGetsLost(net, Run(net, actions[..i], v), v);
    }
  }

  /** A node with a repeated input whose inputs, theirs, and so on have none. */
  lemma LeastRepeated<D>(net: Net<D>, group: set<string>) returns (n: string, above: set<string>)
    requires Wired(net) && Acyclic(InputsOf(net)) && SoundGroup(net, group) && !AllDistinct(net)
    ensures n in net.nodes && !Distinct(net.nodes[n].node.inputs) && SoundGroup(net, above) && n !in above
    ensures forall k :: Edge(net, n, k) ==> net.nodes[n].node.inputs[k] in above
    decreases net.nodes.Keys - group
  {
    var rest := net.nodes.Keys - group;
    assert rest != {};
    HasMinimal(InputsOf(net), rest);
    var m :| m in rest && !HasInputIn(InputsOf(net), rest, m);
    forall k | Edge(net, m, k) ensures net.nodes[m].node.inputs[k] in group {
      assert InputsOf(net)[m][k] !in rest;
    }
    if Distinct(net.nodes[m].node.inputs) {
      n, above := LeastRepeated(net, group + {m});
    } else {
      n, above := m, group;
    }
  }

  lemma {:induction false} UntouchedPositions<D>(net: Net<D>, v: string, actions: seq<Action<D>>,
                                                 group: set<string>, n: string, k: nat)
    requires WorkOf(actions, group) && n !in group && (n, k) in net.pos
    ensures (n, k) in Run(net, actions, v).pos && Run(net, actions, v).pos[(n, k)] == net.pos[(n, k)]
    decreases |actions|
  {
    if actions != [] {
      assert actions[0] in actions;
      UntouchedPositions(Apply(net, actions[0], v), v, actions[1..], group, n, k);
    }
  }

  lemma LaterIsSound<D>(net: Net<D>, t: Net<D>, group: set<string>)
    requires Wired(net) && Later(net, t) && SoundGroup(net, group)
    ensures SoundGroup(t, group)
  {
    SameWired(net, t);
    forall n | n in group ensures t.nodes[n].node.inputs == net.nodes[n].node.inputs {
      assert Extends(net.nodes[n], t.nodes[n]);
    }
  }

  /** A node publishes one message right at the start. */
  lemma EmitAtStart<D>(net: Net<D>, v: string, s: string, d: D) returns (emit: Action<D>)
    requires Started(net) && s in net.nodes && net.nodes[s].node.hasOutput
    ensures var net1 := Apply(net, emit, v);
            && !Loud(net, emit) && Inv(net1, v) && Later(net, net1) && net1.pos == net.pos
            && Cut(net1.nodes[s].node.log) == |net1.nodes[s].node.log| > |net.nodes[s].node.log|
  {
    emit := Emit(s, [Update(d)]);
    StartedInv(net, v);
    ApplyKeepsInv(net, emit, v);
    StepIsLater(net, emit, v);
    FirstMessage(net.nodes[s], d);
  }

  lemma FirstMessage<D>(p: Process<D>, d: D)
    requires p.node.hasOutput && IsData(p.node.log)
    ensures Cut(p.node.log) == |p.node.log|
    ensures var log := Emitted(p, [Update(d)]).node.log; Cut(log) == |log| > |p.node.log|
  {
    var log := p.node.log;
    CutIs(log, |log|);
    CutIs(log + [Update(d)], |log| + 1);
  }

  /** Then it and its inputs finish the barrier while its reader waits. */
  lemma FinishGroup<D>(net: Net<D>, v: string, group: set<string>) returns (work: seq<Action<D>>)
    requires Inv(net, v) && Acyclic(InputsOf(net)) && SoundGroup(net, group)
    ensures WorkOf(work, group) && Silent(net, work, v)
    ensures var t := Run(net, work, v);
            Inv(t, v) && Later(net, t) && group <= t.nodes.Keys && forall n :: n in group ==> Announced(t.nodes[n])
  {
    work := QuietenGroup(net, v, group);
    var t := Run(net, work, v);
    RunKeepsInv(net, work, v);
    RunIsLater(net, work, v);
    LaterIsSound(net, t, group);
    LaterInputs(net, t);
    QuietGroupIsIdle(t, v, group);
    NoEmitIsSilent(net, v, work);
  }

  lemma MakeClash<D>(net: Net<D>, v: string, group: set<string>, n: string, j: nat, k: nat, d: D)
    returns (actions: seq<Action<D>>)
    requires Started(net) && Acyclic(InputsOf(net)) && SoundGroup(net, group) && n !in group && Twin(net, n, j, k)
    requires net.nodes[n].node.inputs[k] in group
    ensures Silent(net, actions, v)
    ensures Inv(Run(net, actions, v), v) && HasClash(Run(net, actions, v), n, j, k)
  {
    var emit := EmitAtStart(net, v, net.nodes[n].node.inputs[k], d);
    var net1 := Apply(net, emit, v);
    StartedInv(net, v);
    LaterIsSound(net, net1, group);
    LaterInputs(net, net1);
    var work := ClashAfter(net, net1, v, group, n, j, k);
    actions := [emit] + work;
    FirstStep(net, v, emit, work);
    SilentFirst(net, v, emit, work);
  }

  lemma SilentFirst<D>(net: Net<D>, v: string, a: Action<D>, rest: seq<Action<D>>)
    requires !Loud(net, a) && Silent(Apply(net, a, v), rest, v)
    ensures Silent(net, [a] + rest, v)
  {
    assert ([a] + rest)[1..] == rest;
  }

  lemma ClashAfter<D>(net: Net<D>, net1: Net<D>, v: string, group: set<string>, n: string, j: nat, k: nat)
    returns (work: seq<Action<D>>)
    requires Wired(net) && EdgeInv(net) && Twin(net, n, j, k) && Later(net, net1) && net1.pos == net.pos
    requires Inv(net1, v) && Acyclic(InputsOf(net1)) && SoundGroup(net1, group) && n !in group
    requires var s := net.nodes[n].node.inputs[k];
             s in group && Cut(net1.nodes[s].node.log) == |net1.nodes[s].node.log| > |net.nodes[s].node.log|
    ensures Silent(net1, work, v) && Inv(Run(net1, work, v), v) && HasClash(Run(net1, work, v), n, j, k)
  {
    work := FinishGroup(net1, v, group);
    UntouchedPositions(net1, v, work, group, n, k);
    ClashMade(net, net1, Run(net1, work, v), v, n, j, k);
  }

  lemma TwinLater<D>(net: Net<D>, t: Net<D>, n: string, j: nat, k: nat)
    requires Later(net, t) && Twin(net, n, j, k)
    ensures Twin(t, n, j, k) && t.nodes[n].node.inputs == net.nodes[n].node.inputs
  {
    assert Extends(net.nodes[n], t.nodes[n]);
  }

  lemma ClashMade<D>(net: Net<D>, net1: Net<D>, t: Net<D>, v: string, n: string, j: nat, k: nat)
    requires Wired(net) && EdgeInv(net) && Twin(net, n, j, k) && Later(net, net1) && Later(net1, t)
    requires (n, k) in t.pos && t.pos[(n, k)] == net.pos[(n, k)] && Inv(t, v)
    requires var s := net.nodes[n].node.inputs[k];
             && s in net1.nodes && s in t.nodes && Announced(t.nodes[s])
             && Cut(net1.nodes[s].node.log) == |net1.nodes[s].node.log| > |net.nodes[s].node.log|
    ensures HasClash(t, n, j, k)
  {
    var s := net.nodes[n].node.inputs[k];
    TwinLater(net, net1, n, j, k);
    TwinLater(net1, t, n, j, k);
    assert Extends(net1.nodes[s], t.nodes[s]);
    CutStays(net1.nodes[s].node.log, t.nodes[s].node.log, 0);
    assert net.pos[(n, k)] <= |InputLog(net, n, k)|;
    assert LogInv(t.nodes[s], v) by {
      assert NodeInv(t.nodes[s], s in t.pending, v);
    }
  }

  ghost predicate SilenceSuffices<D(!new)>(net: Net<D>, v: string) {
    forall actions :: Silent(net, actions, v) ==> SameLosses(net, Run(net, actions, v))
  }

  /** On a valid graph, every run in which no node publishes behind its checkpoint loses nothing, if and
      only if no node lists an input twice. */
  lemma SilenceSufficesExactly<D(!new,00)>(net: Net<D>, v: string)
    requires Started(net) && Acyclic(InputsOf(net))
    ensures SilenceSuffices(net, v) <==> AllDistinct(net)
  {
    if AllDistinct(net) {
      forall actions | Silent(net, actions, v) ensures SameLosses(net, Run(net, actions, v)) {
        NoAssertionFires(net, v, actions);
      }
    } else {
      var actions := LosingRun(net, v);
    }
  }

  lemma LosingRun<D(00)>(net: Net<D>, v: string) returns (actions: seq<Action<D>>)
    requires Started(net) && Acyclic(InputsOf(net)) && !AllDistinct(net)
    ensures Silent(net, actions, v) && !SameLosses(net, Run(net, actions, v))
  {
    StartedInv(net, v);
    var n, above := LeastRepeated(net, {});
    var j: nat, k: nat :| j < k < |net.nodes[n].node.inputs| &&
        net.nodes[n].node.inputs[j] == net.nodes[n].node.inputs[k];
    assert Edge(net, n, j) && Edge(net, n, k);
    var d: D :| true;
    var first := MakeClash(net, v, above, n, j, k, d);
    var t := Run(net, first, v);
    var after := ClashWillBeLost(t, v, n, j, k);
    actions := first + after;
    RunConcat(net, first, after, v);
    NoEmitIsSilent(t, v, after);
    SilentConcat(net, v, first, after);
    RunIsLater(net, first, v);
    RunIsLater(t, after, v);
    if SameLosses(net, Run(net, actions, v)) {
      LossesBetween(net, t, Run(net, actions, v));
      assert false;
    }
  }

  lemma {:induction false} SilentConcat<D>(net: Net<D>, v: string, a: seq<Action<D>>, b: seq<Action<D>>)
    requires Silent(net, a, v) && Silent(Run(net, a, v), b, v)
    ensures Silent(net, a + b, v)
    decreases |a|
  {
    if a == [] {
      assert a + b == b;
    } else {
      assert (a + b)[1..] == a[1..] + b;
      SilentConcat(Apply(net, a[0], v), v, a[1..], b);
    }
  }

  // ---------- publishers that are silent ----------

  /** Nodes that publish only while STARTED, as polling miners do, are silent. */
  ghost predicate OnlyStartedEmit<D>(net: Net<D>, actions: seq<Action<D>>, v: string)
    decreases |actions|
  {
    actions != [] ==>
      && (actions[0].Emit? && actions[0].n in net.nodes && actions[0].out != [] ==>
            net.nodes[actions[0].n].node.state == STARTED)
      && OnlyStartedEmit(Apply(net, actions[0], v), actions[1..], v)
  }

  lemma StartedLog<D>(p: Process<D>, pending: bool, v: string)
    requires NodeInv(p, pending, v)
    ensures p.node.state == STARTED ==> Cut(p.node.log) == |p.node.log|
  {
  }

  lemma {:induction false} StartedEmittersAreSilent<D>(net: Net<D>, v: string, actions: seq<Action<D>>)
    requires Inv(net, v) && OnlyStartedEmit(net, actions, v)
    ensures Silent(net, actions, v)
    decreases |actions|
  {
    if actions != [] {
      if actions[0].n in net.nodes {
        StartedLog(net.nodes[actions[0].n], actions[0].n in net.pending, v);
      }
      ApplyKeepsInv(net, actions[0], v);
      StartedEmittersAreSilent(Apply(net, actions[0], v), v, actions[1..]);
    }
  }
}
